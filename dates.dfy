/** The message date: the service sends local wall-clock time as
    `YYYY-MM-DD HH:MM:SS`; the client appends the fixed offset `+0200` and
    parses the result with `%Y-%m-%d %H:%M:%S%z` into a timezone-aware
    timestamp. Fields are parsed at their full width only. */
module Dates {
  import opened Wrappers

  /** The UTC offset appended to every date the service reports. */
  const DATE_OFFSET: string := "+0200"

  /** Minutes east of UTC that DATE_OFFSET stands for. */
  const DATE_OFFSET_MINUTES: int := 120

  /** A timezone-aware timestamp: wall-clock fields and a UTC offset in minutes. */
  datatype Timestamp = Timestamp(year: int, month: int, day: int,
                                 hour: int, minute: int, second: int,
                                 offset: int)

  predicate IsLeapYear(year: int) {
    year % 4 == 0 && (year % 100 != 0 || year % 400 == 0)
  }

  function DaysInMonth(year: int, month: int): (days: int)
    requires 1 <= month <= 12
    ensures 28 <= days <= 31
    ensures month == 2 ==> (days == 29 <==> IsLeapYear(year))
  {
    if month == 2 then (if IsLeapYear(year) then 29 else 28)
    else if month == 4 || month == 6 || month == 9 || month == 11 then 30
    else 31
  }

  /** The timestamps `datetime` can hold: years 1 to 9999, real calendar
      days, seconds below 60 and an offset strictly inside one day. */
  predicate Valid(t: Timestamp) {
    && 1 <= t.year <= 9999
    && 1 <= t.month <= 12
    && 1 <= t.day <= DaysInMonth(t.year, t.month)
    && 0 <= t.hour < 24 && 0 <= t.minute < 60 && 0 <= t.second < 60
    && -1440 < t.offset < 1440
  }

  predicate IsDigit(c: char) { '0' <= c <= '9' }

  predicate AllDigits(s: string) {
    forall i :: 0 <= i < |s| ==> IsDigit(s[i])
  }

  function Pow10(n: nat): (p: nat)
    ensures p >= 1
  {
    if n == 0 then 1 else 10 * Pow10(n - 1)
  }

  /** The value of a run of decimal digits; it fits in as many digits as it has. */
  function Number(s: string): (n: nat)
    requires AllDigits(s)
    ensures n < Pow10(|s|)
  {
    if s == [] then 0
    else
      var init := s[..|s| - 1];
      var high := Number(init);
      assert high <= Pow10(|init|) - 1;
      high * 10 + (s[|s| - 1] as int - '0' as int)
  }

  function DigitChar(d: int): (c: char)
    requires 0 <= d < 10
    ensures IsDigit(c) && c as int - '0' as int == d
  {
    ('0' as int + d) as char
  }

  /** `n` in exactly `width` decimal digits with leading zeros. */
  function Pad(n: nat, width: nat): (s: string)
    requires n < Pow10(width)
    ensures |s| == width && AllDigits(s)
  {
    if width == 0 then ""
    else Pad(n / 10, width - 1) + [DigitChar(n % 10)]
  }

  /** Reading back a padded number gives the number. */
  lemma {:induction false} NumberOfPad(n: nat, width: nat)
    requires n < Pow10(width)
    ensures Number(Pad(n, width)) == n
  {
    if width > 0 {
      var s := Pad(n, width);
      assert s[..width - 1] == Pad(n / 10, width - 1);
      NumberOfPad(n / 10, width - 1);
    }
  }

  lemma DivMod10(q: nat, d: nat)
    requires d < 10
    ensures (q * 10 + d) / 10 == q && (q * 10 + d) % 10 == d
  {
  }

  /** Padding the value of a digit run to its own width gives the run back. */
  lemma {:induction false} PadOfNumber(s: string)
    requires AllDigits(s)
    ensures Pad(Number(s), |s|) == s
  {
    if s != [] {
      var init := s[..|s| - 1];
      var last := s[|s| - 1];
      PadOfNumber(init);
      var d := last as int - '0' as int;
      assert Number(s) == Number(init) * 10 + d;
      DivMod10(Number(init), d);
      assert DigitChar(d) == last;
      assert Pad(Number(s), |s|) == Pad(Number(init), |s| - 1) + [last];
      assert s == init + [last];
    }
  }

  function Abs(x: int): nat { if x < 0 then -x else x }

  /** The shape `%Y-%m-%d %H:%M:%S%z` demands, every field at full width and
      the offset written `+HHMM` or `-HHMM`. */
  predicate WellFormed(s: string) {
    && |s| == 24
    && s[4] == '-' && s[7] == '-' && s[10] == ' ' && s[13] == ':' && s[16] == ':'
    && (s[19] == '+' || s[19] == '-')
    && AllDigits(s[0..4]) && AllDigits(s[5..7]) && AllDigits(s[8..10])
    && AllDigits(s[11..13]) && AllDigits(s[14..16]) && AllDigits(s[17..19])
    && AllDigits(s[20..22]) && AllDigits(s[22..24])
  }

  /** The offset in minutes a well-formed text spells. */
  function OffsetOf(s: string): int
    requires WellFormed(s)
  {
    var magnitude := Number(s[20..22]) * 60 + Number(s[22..24]);
    if s[19] == '+' then magnitude else -magnitude
  }

  /** The timestamp a well-formed text spells, before any range check. */
  function FieldsOf(s: string): Timestamp
    requires WellFormed(s)
  {
    Timestamp(Number(s[0..4]), Number(s[5..7]), Number(s[8..10]),
              Number(s[11..13]), Number(s[14..16]), Number(s[17..19]), OffsetOf(s))
  }

  /** Parses `s` as `%Y-%m-%d %H:%M:%S%z`; None where `strptime` raises. */
  function ParseTimestamp(s: string): (r: Option<Timestamp>)
    ensures r.Some? ==> Valid(r.value) && |s| == 24
  {
    if WellFormed(s) && Number(s[22..24]) < 60 && Valid(FieldsOf(s)) then Some(FieldsOf(s)) else None
  }

  /** Two texts with a separator character between them. */
  function Joined(a: string, sep: char, b: string): (r: string)
    ensures |r| == |a| + 1 + |b|
    ensures r[..|a|] == a && r[|a|] == sep && r[|a| + 1..] == b
  {
    a + [sep] + b
  }

  /** A text is rebuilt from its two sides around any of its positions. */
  lemma JoinedAt(r: string, i: nat)
    requires i < |r|
    ensures r == Joined(r[..i], r[i], r[i + 1..])
  {
    assert r == r[..i] + [r[i]] + r[i + 1..];
  }

  /** `YYYY-MM-DD`. */
  function DayText(t: Timestamp): (s: string)
    requires Valid(t)
    ensures |s| == 10
  {
    Joined(Pad(t.year, 4), '-', Joined(Pad(t.month, 2), '-', Pad(t.day, 2)))
  }

  /** `HH:MM:SS`. */
  function ClockText(t: Timestamp): (s: string)
    requires Valid(t)
    ensures |s| == 8
  {
    Joined(Pad(t.hour, 2), ':', Joined(Pad(t.minute, 2), ':', Pad(t.second, 2)))
  }

  /** The service's wire form `YYYY-MM-DD HH:MM:SS`. */
  function WireDate(t: Timestamp): (s: string)
    requires Valid(t)
    ensures |s| == 19
  {
    Joined(DayText(t), ' ', ClockText(t))
  }

  /** The offset as `%z` writes it: a sign, two digits of hours, two of minutes. */
  function OffsetText(offset: int): (s: string)
    requires -1440 < offset < 1440
    ensures |s| == 5
  {
    (if offset >= 0 then "+" else "-") + Pad(Abs(offset) / 60, 2) + Pad(Abs(offset) % 60, 2)
  }

  /** The offset as `str()` of a datetime writes it: `+HH:MM` or `-HH:MM`. */
  function ZoneText(offset: int): (s: string)
    requires -1440 < offset < 1440
    ensures |s| == 6
  {
    (if offset >= 0 then "+" else "-") + Pad(Abs(offset) / 60, 2) + ":" + Pad(Abs(offset) % 60, 2)
  }

  /** `str()` of an aware datetime without microseconds: `YYYY-MM-DD HH:MM:SS+HH:MM`. */
  function Display(t: Timestamp): (s: string)
    requires Valid(t)
    ensures |s| == 25 && s[..19] == WireDate(t)
  {
    WireDate(t) + ZoneText(t.offset)
  }

  /** The date of a message: its wire text with DATE_OFFSET appended, parsed. */
  function ParseMessageDate(date: string): (r: Option<Timestamp>)
    ensures r.Some? ==> Valid(r.value) && |date| == 19
  {
    ParseTimestamp(date + DATE_OFFSET)
  }

  /** A slice of a concatenation that lies within one of its two parts. */
  lemma SliceOfConcat(a: string, b: string, i: nat, j: nat)
    requires i <= j <= |a| + |b|
    ensures j <= |a| ==> (a + b)[i..j] == a[i..j]
    ensures |a| <= i ==> (a + b)[i..j] == b[i - |a|..j - |a|]
  {
  }

  /** The three runs of `x<sep>y<sep>z`, for runs of widths 4 or 2, 2, 2. */
  lemma TripleSlices(a: string, sep: char, b: string, c: string)
    requires |b| == 2 && |c| == 2
    ensures var r := Joined(a, sep, Joined(b, sep, c));
      && r[..|a|] == a && r[|a|] == sep && r[|a| + 1..|a| + 3] == b
      && r[|a| + 3] == sep && r[|a| + 4..] == c
  {
    var r := Joined(a, sep, Joined(b, sep, c));
    assert r[|a| + 1..] == Joined(b, sep, c);
    assert r[|a| + 1..|a| + 3] == r[|a| + 1..][..2];
    assert r[|a| + 4..] == r[|a| + 1..][3..];
  }

  /** Where each field of the wire form sits. */
  lemma WireSlices(t: Timestamp)
    requires Valid(t)
    ensures var w := WireDate(t);
      && w[0..4] == Pad(t.year, 4) && w[5..7] == Pad(t.month, 2) && w[8..10] == Pad(t.day, 2)
      && w[11..13] == Pad(t.hour, 2) && w[14..16] == Pad(t.minute, 2) && w[17..19] == Pad(t.second, 2)
      && w[4] == '-' && w[7] == '-' && w[10] == ' ' && w[13] == ':' && w[16] == ':'
  {
    var w := WireDate(t);
    var day := DayText(t);
    var clock := ClockText(t);
    TripleSlices(Pad(t.year, 4), '-', Pad(t.month, 2), Pad(t.day, 2));
    TripleSlices(Pad(t.hour, 2), ':', Pad(t.minute, 2), Pad(t.second, 2));
    assert w[..10] == day && w[11..] == clock;
    assert w[0..4] == day[0..4] && w[5..7] == day[5..7] && w[8..10] == day[8..];
    assert w[11..13] == clock[0..2] && w[14..16] == clock[3..5] && w[17..19] == clock[6..];
  }

  /** Where each field sits in the `%Y-%m-%d %H:%M:%S%z` text of `t`. */
  lemma FormattedSlices(t: Timestamp)
    requires Valid(t)
    ensures var s := WireDate(t) + OffsetText(t.offset);
      var m := Abs(t.offset);
      && |s| == 24
      && s[4] == '-' && s[7] == '-' && s[10] == ' ' && s[13] == ':' && s[16] == ':'
      && s[19] == (if t.offset >= 0 then '+' else '-')
      && s[0..4] == Pad(t.year, 4) && s[5..7] == Pad(t.month, 2) && s[8..10] == Pad(t.day, 2)
      && s[11..13] == Pad(t.hour, 2) && s[14..16] == Pad(t.minute, 2) && s[17..19] == Pad(t.second, 2)
      && s[20..22] == Pad(m / 60, 2) && s[22..24] == Pad(m % 60, 2)
  {
    var w := WireDate(t);
    var z := OffsetText(t.offset);
    var m := Abs(t.offset);
    WireSlices(t);
    SliceOfConcat(w, z, 0, 4);
    SliceOfConcat(w, z, 5, 7);
    SliceOfConcat(w, z, 8, 10);
    SliceOfConcat(w, z, 11, 13);
    SliceOfConcat(w, z, 14, 16);
    SliceOfConcat(w, z, 17, 19);
    SliceOfConcat(w, z, 20, 22);
    SliceOfConcat(w, z, 22, 24);
    assert z[1..3] == Pad(m / 60, 2) && z[3..5] == Pad(m % 60, 2);
  }

  /** Every valid timestamp survives writing it out as `%Y-%m-%d %H:%M:%S%z`
      and parsing it back. */
  lemma ParseFormatted(t: Timestamp)
    requires Valid(t)
    ensures ParseTimestamp(WireDate(t) + OffsetText(t.offset)) == Some(t)
  {
    var s := WireDate(t) + OffsetText(t.offset);
    FormattedSlices(t);
    FieldNumbers(s, t, Abs(t.offset));
    assert WellFormed(s);
    assert OffsetOf(s) == t.offset;
    assert FieldsOf(s) == t;
  }

  /** The digit runs of a 24-character text that spell the fields of `t`
      and the offset `m` minutes read back as those values. */
  lemma FieldNumbers(s: string, t: Timestamp, m: nat)
    requires Valid(t) && |s| == 24 && m == Abs(t.offset)
    requires s[0..4] == Pad(t.year, 4) && s[5..7] == Pad(t.month, 2) && s[8..10] == Pad(t.day, 2)
    requires s[11..13] == Pad(t.hour, 2) && s[14..16] == Pad(t.minute, 2) && s[17..19] == Pad(t.second, 2)
    requires s[20..22] == Pad(m / 60, 2) && s[22..24] == Pad(m % 60, 2)
    ensures && Number(s[0..4]) == t.year && Number(s[5..7]) == t.month && Number(s[8..10]) == t.day
            && Number(s[11..13]) == t.hour && Number(s[14..16]) == t.minute && Number(s[17..19]) == t.second
    ensures Number(s[20..22]) * 60 + Number(s[22..24]) == m && Number(s[22..24]) < 60
  {
    NumberOfPad(t.year, 4);
    NumberOfPad(t.month, 2);
    NumberOfPad(t.day, 2);
    NumberOfPad(t.hour, 2);
    NumberOfPad(t.minute, 2);
    NumberOfPad(t.second, 2);
    NumberOfPad(m / 60, 2);
    NumberOfPad(m % 60, 2);
  }

  /** DATE_OFFSET's minutes are written back as `+0200` by `%z` and as
      `+02:00` by `str()`. */
  lemma FixedOffsetTexts()
    ensures OffsetText(DATE_OFFSET_MINUTES) == DATE_OFFSET
    ensures ZoneText(DATE_OFFSET_MINUTES) == "+02:00"
  {
    assert Pad(2, 2) == "02" && Pad(0, 2) == "00";
  }

  /** Every valid wall-clock time at +02:00, sent in the wire form, is
      accepted and parsed back to itself. */
  lemma ParseWireDate(t: Timestamp)
    requires Valid(t) && t.offset == DATE_OFFSET_MINUTES
    ensures ParseMessageDate(WireDate(t)) == Some(t)
  {
    FixedOffsetTexts();
    ParseFormatted(t);
  }

  /** The fields of a parsed message date are the values of its digit runs,
      and its offset is DATE_OFFSET's. */
  lemma ParsedFields(date: string, t: Timestamp)
    requires ParseMessageDate(date) == Some(t)
    ensures |date| == 19
    ensures && AllDigits(date[0..4]) && AllDigits(date[5..7]) && AllDigits(date[8..10])
            && AllDigits(date[11..13]) && AllDigits(date[14..16]) && AllDigits(date[17..19])
    ensures date[4] == '-' && date[7] == '-' && date[10] == ' ' && date[13] == ':' && date[16] == ':'
    ensures t == Timestamp(Number(date[0..4]), Number(date[5..7]), Number(date[8..10]),
                           Number(date[11..13]), Number(date[14..16]), Number(date[17..19]),
                           DATE_OFFSET_MINUTES)
  {
    var s := date + DATE_OFFSET;
    assert s[20..22] == "02" && s[22..24] == "00";
    assert Number("02") == 2 && Number("00") == 0;
    assert date[0..4] == s[0..4] && date[5..7] == s[5..7] && date[8..10] == s[8..10];
    assert date[11..13] == s[11..13] && date[14..16] == s[14..16] && date[17..19] == s[17..19];
  }

  /** The date half of a parsed message date is the `YYYY-MM-DD` text of the
      parsed timestamp. */
  lemma ParsedDayText(date: string, t: Timestamp)
    requires ParseMessageDate(date) == Some(t)
    ensures |date| == 19 && DayText(t) == date[..10]
  {
    ParsedFields(date, t);
    PadOfNumber(date[0..4]);
    PadOfNumber(date[5..7]);
    PadOfNumber(date[8..10]);
    RunsRebuild(date[..10], '-', 4);
    assert date[..10][..4] == date[0..4] && date[..10][5..7] == date[5..7] && date[..10][8..] == date[8..10];
  }

  /** The time half of a parsed message date is the `HH:MM:SS` text of the
      parsed timestamp. */
  lemma ParsedClockText(date: string, t: Timestamp)
    requires ParseMessageDate(date) == Some(t)
    ensures |date| == 19 && ClockText(t) == date[11..]
  {
    ParsedFields(date, t);
    var clock := date[11..];
    assert clock[..2] == date[11..13] && clock[3..5] == date[14..16] && clock[6..] == date[17..19];
    PadOfNumber(clock[..2]);
    PadOfNumber(clock[3..5]);
    PadOfNumber(clock[6..]);
    RunsRebuild(clock, ':', 2);
  }

  /** A date that parses was exactly the wire form of the parsed timestamp,
      and the timestamp carries the fixed offset. */
  lemma ParsedIsWireDate(date: string, t: Timestamp)
    requires ParseMessageDate(date) == Some(t)
    ensures t.offset == DATE_OFFSET_MINUTES && WireDate(t) == date
  {
    ParsedFields(date, t);
    ParsedDayText(date, t);
    ParsedClockText(date, t);
    JoinedAt(date, 10);
  }

  /** A text of the shape `x<sep>yy<sep>zz` is rebuilt from its three runs. */
  lemma RunsRebuild(r: string, sep: char, width: nat)
    requires |r| == width + 6 && r[width] == sep && r[width + 3] == sep
    ensures r == Joined(r[..width], sep, Joined(r[width + 1..width + 3], sep, r[width + 4..]))
  {
    JoinedAt(r, width);
    var rest := r[width + 1..];
    JoinedAt(rest, 2);
    assert rest[..2] == r[width + 1..width + 3] && rest[3..] == r[width + 4..];
  }

  /** A parsed message date is shown as the wire text followed by `+02:00`. */
  lemma {:induction false} DisplayOfParsedDate(date: string, t: Timestamp)
    requires ParseMessageDate(date) == Some(t)
    ensures Display(t) == date + "+02:00"
  {
    ParsedIsWireDate(date, t);
    FixedOffsetTexts();
  }
}
