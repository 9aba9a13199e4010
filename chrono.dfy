/**
 * The part of Python's datetime that the photo tools rely on: a calendar
 * date and wall-clock time, datetime.strptime for the two formats the
 * tools parse, and strftime/isoformat for the texts they write.
 *
 * strptime works by a regular expression per directive: %Y is exactly four
 * digits; %m, %d, %H, %M and %S are one or two digits in their range (%S up
 * to 61, %d also a space followed by one digit); a blank in the format
 * matches one or more whitespace characters. The whole input must be
 * consumed, and datetime() then rejects a year 0, a day past the end of its
 * month and a second of 60 or 61.
 */
module Chrono {
  import opened Wrappers
  import opened Text

  datatype DateTime = DateTime(year: int, month: int, day: int, hour: int, minute: int, second: int)

  predicate IsLeapYear(y: int) { y % 4 == 0 && (y % 100 != 0 || y % 400 == 0) }

  function DaysInMonth(year: int, month: int): (n: int)
    requires 1 <= month <= 12
    ensures 28 <= n <= 31
  {
    if month == 2 then (if IsLeapYear(year) then 29 else 28)
    else if month == 4 || month == 6 || month == 9 || month == 11 then 30
    else 31
  }

  /** The values datetime() accepts: years 1 to 9999, real calendar days, no leap second. */
  predicate Valid(dt: DateTime)
  {
    && 1 <= dt.year <= 9999
    && 1 <= dt.month <= 12
    && 1 <= dt.day <= DaysInMonth(dt.year, dt.month)
    && 0 <= dt.hour < 24
    && 0 <= dt.minute < 60
    && 0 <= dt.second < 60
  }

  function Checked(dt: DateTime): (r: Option<DateTime>)
    ensures r.Some? <==> Valid(dt)
    ensures r.Some? ==> r.value == dt
  {
    if Valid(dt) then Some(dt) else None
  }

  /** What the %Y pattern accepts. */
  predicate YearToken(t: string) { |t| == 4 && AllDigits(t) }

  /** What the %m, %H, %M and %S patterns accept: one or two digits whose value is in lo..hi. */
  predicate NumberToken(t: string, lo: nat, hi: nat)
  {
    1 <= |t| <= 2 && AllDigits(t) && lo <= DigitsValue(t) <= hi
  }

  /** What the %d pattern accepts: 1..31 in one or two digits, or a space and one digit 1..9. */
  predicate DayToken(t: string)
  {
    NumberToken(t, 1, 31) || (|t| == 2 && t[0] == ' ' && '1' <= t[1] <= '9')
  }

  function DayValue(t: string): nat
    requires DayToken(t)
  {
    if t[0] == ' ' then DigitValue(t[1]) else DigitsValue(t)
  }

  /**
   * datetime.strptime(s, '%Y-%m-%d-%H-%M'). None stands for the ValueError
   * that the file name parser turns into None.
   */
  function ParseStem(s: string): (r: Option<DateTime>)
    ensures r.Some? ==> Valid(r.value) && r.value.second == 0
  {
    var p := Split(s, '-');
    if |p| == 5 && YearToken(p[0]) && NumberToken(p[1], 1, 12) && DayToken(p[2])
       && NumberToken(p[3], 0, 23) && NumberToken(p[4], 0, 59)
    then Checked(DateTime(DigitsValue(p[0]), DigitsValue(p[1]), DayValue(p[2]), DigitsValue(p[3]), DigitsValue(p[4]), 0))
    else None
  }

  /**
   * The ASCII characters Python's \s matches on str: space, tab, line feed,
   * vertical tab, form feed, carriage return and the four separators
   * 0x1C to 0x1F. The non-ASCII ones are not part of this model.
   */
  predicate IsSpace(c: char)
  {
    c == ' ' || c == '\t' || c == '\n' || c == '\r' || c == '\U{0B}' || c == '\U{0C}'
      || ('\U{1C}' <= c <= '\U{1F}')
  }

  /** Length of the run of non-whitespace characters that starts `s`. */
  function NonSpaceSpan(s: string): (n: nat)
    ensures n <= |s|
    ensures forall i :: 0 <= i < n ==> !IsSpace(s[i])
    ensures n < |s| ==> IsSpace(s[n])
  {
    if s == [] || IsSpace(s[0]) then 0 else 1 + NonSpaceSpan(s[1..])
  }

  /** Length of the run of whitespace characters that starts `s`. */
  function SpaceSpan(s: string): (n: nat)
    ensures n <= |s|
    ensures forall i :: 0 <= i < n ==> IsSpace(s[i])
    ensures n < |s| ==> !IsSpace(s[n])
  {
    if s == [] || !IsSpace(s[0]) then 0 else 1 + SpaceSpan(s[1..])
  }

  /**
   * The "%d %H" stretch of the EXIF format: the day text (which may open
   * with one space), at least one whitespace character, and the hour text.
   */
  function SplitDayHour(s: string): Option<(string, string)>
  {
    var lead := if |s| > 0 && s[0] == ' ' then 1 else 0;
    var dayEnd := lead + NonSpaceSpan(s[lead..]);
    var gap := SpaceSpan(s[dayEnd..]);
    if gap == 0 then None else Some((s[..dayEnd], s[dayEnd + gap..]))
  }

  /**
   * datetime.strptime(s, '%Y:%m:%d %H:%M:%S'), the layout of the TIFF
   * DateTime tag. None stands for the ValueError strptime raises.
   */
  function ParseExifDateTime(s: string): (r: Option<DateTime>)
    ensures r.Some? ==> Valid(r.value)
  {
    var p := Split(s, ':');
    if |p| != 5 then None
    else match SplitDayHour(p[2])
      case None => None
      case Some((d, h)) =>
        if YearToken(p[0]) && NumberToken(p[1], 1, 12) && DayToken(d) && NumberToken(h, 0, 23)
           && NumberToken(p[3], 0, 59) && NumberToken(p[4], 0, 61)
        then Checked(DateTime(DigitsValue(p[0]), DigitsValue(p[1]), DayValue(d), DigitsValue(h), DigitsValue(p[3]), DigitsValue(p[4])))
        else None
  }

  /**
   * dt.strftime('%Y-%m-%d-%H-%M'): the file stem the rename tool gives a
   * photo, sixteen characters of digits and dashes (ParseFormatStem reads
   * it back).
   */
  function FormatStem(dt: DateTime): (r: string)
    requires Valid(dt)
    ensures |r| == 16 && '.' !in r
  {
    var y, mo, d, h, mi := Pad4(dt.year), Pad2(dt.month), Pad2(dt.day), Pad2(dt.hour), Pad2(dt.minute);
    JoinFive(y, mo, d, h, mi, '-');
    DigitsExclude(y, '.'); DigitsExclude(mo, '.'); DigitsExclude(d, '.'); DigitsExclude(h, '.'); DigitsExclude(mi, '.');
    Join([y, mo, d, h, mi], '-')
  }

  /**
   * dt.date().isoformat(): the key of a date bucket, "YYYY-MM-DD", whose
   * fields are the zero-padded year, month and day (Pad4 and Pad2 read back
   * to their numbers).
   */
  function IsoDate(dt: DateTime): (r: string)
    requires Valid(dt)
    ensures |r| == 10 && r[4] == '-' && r[7] == '-'
    ensures r[..4] == Pad4(dt.year) && r[5..7] == Pad2(dt.month) && r[8..] == Pad2(dt.day)
  {
    var y, mo, d := Pad4(dt.year), Pad2(dt.month), Pad2(dt.day);
    var r := y + "-" + mo + "-" + d;
    assert r[..4] == y && r[5..7] == mo && r[8..] == d;
    r
  }

  /**
   * dt.isoformat() for a datetime without microseconds,
   * "YYYY-MM-DDTHH:MM:SS": its first ten characters are the date key.
   */
  function IsoFormat(dt: DateTime): (r: string)
    requires Valid(dt)
    ensures |r| == 19 && r[..10] == IsoDate(dt) && r[10] == 'T' && r[13] == ':' && r[16] == ':'
    ensures r[11..13] == Pad2(dt.hour) && r[14..16] == Pad2(dt.minute) && r[17..] == Pad2(dt.second)
  {
    var h, mi, s := Pad2(dt.hour), Pad2(dt.minute), Pad2(dt.second);
    var r := IsoDate(dt) + "T" + h + ":" + mi + ":" + s;
    assert r[..10] == IsoDate(dt) && r[11..13] == h && r[14..16] == mi && r[17..] == s;
    r
  }

  /** The TIFF 6.0 DateTime layout "YYYY:MM:DD HH:MM:SS" (section 8 of TIFF 6.0). */
  function ExifText(dt: DateTime): (r: string)
    requires Valid(dt)
  {
    Join([Pad4(dt.year), Pad2(dt.month), Pad2(dt.day) + " " + Pad2(dt.hour), Pad2(dt.minute), Pad2(dt.second)], ':')
  }

  lemma DigitsExclude(s: string, c: char)
    requires AllDigits(s) && !IsDigit(c)
    ensures c !in s
  {
  }

  lemma NumberTokenOfPad2(n: nat, lo: nat, hi: nat)
    requires lo <= n <= hi && n < 100
    ensures NumberToken(Pad2(n), lo, hi)
  {
  }

  /** A stem the rename tool writes parses back to its date and time with the seconds cleared. */
  lemma ParseFormatStem(dt: DateTime)
    requires Valid(dt)
    ensures ParseStem(FormatStem(dt)) == Some(dt.(second := 0))
  {
    var y, mo, d, h, mi := Pad4(dt.year), Pad2(dt.month), Pad2(dt.day), Pad2(dt.hour), Pad2(dt.minute);
    DigitsExclude(y, '-'); DigitsExclude(mo, '-'); DigitsExclude(d, '-'); DigitsExclude(h, '-'); DigitsExclude(mi, '-');
    SplitJoin([y, mo, d, h, mi], '-');
    NumberTokenOfPad2(dt.day, 1, 31);
  }

  lemma SplitPaddedDayHour(d: string, h: string)
    requires |d| == 2 && AllDigits(d) && AllDigits(h)
    ensures SplitDayHour(d + " " + h) == Some((d, h))
  {
    var dh := d + " " + h;
    assert dh[0] == d[0] && !IsSpace(dh[0]);
    assert dh[..2] == d && dh[2] == ' ';
    assert NonSpaceSpan(dh) == 2 by {
      assert NonSpaceSpan(dh) == 1 + NonSpaceSpan(dh[1..]);
      assert dh[1..][0] == d[1];
      assert NonSpaceSpan(dh[1..]) == 1 + NonSpaceSpan(dh[2..]);
    }
    assert dh[2..] == " " + h;
    if |h| > 0 { assert !IsSpace(h[0]); }
    assert SpaceSpan(" " + h) == 1 by {
      assert (" " + h)[1..] == h;
    }
    assert dh[3..] == h;
  }

  /** An EXIF DateTime text parses back to the date and time it was written from. */
  lemma ParseExifText(dt: DateTime)
    requires Valid(dt)
    ensures ParseExifDateTime(ExifText(dt)) == Some(dt)
  {
    var y, mo, d, h, mi, s := Pad4(dt.year), Pad2(dt.month), Pad2(dt.day), Pad2(dt.hour), Pad2(dt.minute), Pad2(dt.second);
    ExifTextSplits(dt);
    SplitPaddedDayHour(d, h);
    NumberTokenOfPad2(dt.month, 1, 12);
    NumberTokenOfPad2(dt.day, 1, 31);
    NumberTokenOfPad2(dt.hour, 0, 23);
    NumberTokenOfPad2(dt.minute, 0, 59);
    NumberTokenOfPad2(dt.second, 0, 61);
    assert Checked(DateTime(DigitsValue(y), DigitsValue(mo), DayValue(d), DigitsValue(h), DigitsValue(mi), DigitsValue(s))) == Some(dt);
  }

  /** The EXIF text splits at ':' into year, month, "day hour", minute and second. */
  lemma ExifTextSplits(dt: DateTime)
    requires Valid(dt)
    ensures Split(ExifText(dt), ':')
         == [Pad4(dt.year), Pad2(dt.month), Pad2(dt.day) + " " + Pad2(dt.hour), Pad2(dt.minute), Pad2(dt.second)]
  {
    var y, mo, d, h, mi, s := Pad4(dt.year), Pad2(dt.month), Pad2(dt.day), Pad2(dt.hour), Pad2(dt.minute), Pad2(dt.second);
    var dh := d + " " + h;
    DigitsExclude(y, ':'); DigitsExclude(mo, ':'); DigitsExclude(d, ':'); DigitsExclude(h, ':');
    DigitsExclude(mi, ':'); DigitsExclude(s, ':');
    assert ':' !in dh;
    SplitJoin([y, mo, dh, mi, s], ':');
  }
}
