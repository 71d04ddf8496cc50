/** Booking times as the interpreter reads and writes them, with the
    date pattern `yyyy-MM-dd'T'HH:mm`: a wall-clock minute, compared
    chronologically. */
module Timestamps {
  import opened Wrappers
  import opened Text

  datatype Stamp = Stamp(year: int, month: int, day: int, hour: int, minute: int)

  predicate IsLeapYear(y: int) {
    (y % 4 == 0 && y % 100 != 0) || y % 400 == 0
  }

  function DaysInMonth(y: int, m: int): (d: int)
    requires 1 <= m <= 12
    ensures 28 <= d <= 31
  {
    if m == 2 then (if IsLeapYear(y) then 29 else 28)
    else if m == 4 || m == 6 || m == 9 || m == 11 then 30
    else 31
  }

  /** A calendar date with a four-digit year and a time of day. */
  predicate IsCalendarMinute(t: Stamp) {
    0 <= t.year <= 9999 &&
    1 <= t.month <= 12 &&
    1 <= t.day <= DaysInMonth(t.year, t.month) &&
    0 <= t.hour <= 23 &&
    0 <= t.minute <= 59
  }

  type Time = t: Stamp | IsCalendarMinute(t) witness Stamp(2000, 1, 1, 0, 0)

  /** Chronological order: earlier year first, then month, day, hour, minute. */
  predicate Less(a: Time, b: Time) {
    a.year < b.year || (a.year == b.year &&
    (a.month < b.month || (a.month == b.month &&
    (a.day < b.day || (a.day == b.day &&
    (a.hour < b.hour || (a.hour == b.hour && a.minute < b.minute)))))))
  }

  predicate LessEq(a: Time, b: Time) {
    Less(a, b) || a == b
  }

  /** Any two different times are ordered one way round, never both. */
  lemma LessTotal(a: Time, b: Time)
    ensures !(Less(a, b) && Less(b, a))
    ensures !Less(a, a)
    ensures a == b || Less(a, b) || Less(b, a)
  {
  }

  // ---------------------------------------------------------------------
  // Text form

  function Pad2(n: nat): (s: string)
    requires n < 100
    ensures |s| == 2 && AllDigits(s)
  {
    [DigitChar(n / 10), DigitChar(n % 10)]
  }

  function Pad4(n: nat): (s: string)
    requires n < 10000
    ensures |s| == 4 && AllDigits(s)
  {
    Pad2(n / 100) + Pad2(n % 100)
  }

  /** `t` written as `yyyy-MM-dd'T'HH:mm`, every field zero-padded. */
  function Format(t: Time): (s: string)
    ensures |s| == 16
  {
    Pad4(t.year) + "-" + Pad2(t.month) + "-" + Pad2(t.day) + "T" +
    Pad2(t.hour) + ":" + Pad2(t.minute)
  }

  /** Reads `yyyy-MM-dd'T'HH:mm` strictly: exactly sixteen characters,
      digits in the numeric fields, and a date and time that exist. */
  function Parse(s: string): (r: Option<Time>)
    ensures r.Some? ==> |s| == 16
  {
    if |s| == 16 && s[4] == '-' && s[7] == '-' && s[10] == 'T' && s[13] == ':' &&
       AllDigits(s[0..4]) && AllDigits(s[5..7]) && AllDigits(s[8..10]) &&
       AllDigits(s[11..13]) && AllDigits(s[14..16])
    then
      var t := Stamp(DigitsValue(s[0..4]), DigitsValue(s[5..7]), DigitsValue(s[8..10]),
                     DigitsValue(s[11..13]), DigitsValue(s[14..16]));
      if IsCalendarMinute(t) then Some(t) else None
    else None
  }

  lemma DigitsValueSnoc(x: string, c: char)
    requires AllDigits(x) && IsDigit(c)
    ensures AllDigits(x + [c])
    ensures DigitsValue(x + [c]) == DigitsValue(x) * 10 + DigitValue(c)
  {
    assert (x + [c])[..|x|] == x;
  }

  /** The value of two digits `ab` is `10 * a + b`. */
  lemma DigitsValuePair(a: char, b: char)
    requires IsDigit(a) && IsDigit(b)
    ensures AllDigits([a, b])
    ensures DigitsValue([a, b]) == DigitValue(a) * 10 + DigitValue(b)
  {
    DigitsValueSnoc([], a);
    assert [] + [a] == [a];
    DigitsValueSnoc([a], b);
    assert [a] + [b] == [a, b];
  }

  lemma Pad2Value(n: nat)
    requires n < 100
    ensures DigitsValue(Pad2(n)) == n
  {
    DigitsValuePair(DigitChar(n / 10), DigitChar(n % 10));
  }

  lemma DigitsValueAppend2(x: string, y: string)
    requires AllDigits(x) && AllDigits(y) && |y| == 2
    ensures AllDigits(x + y)
    ensures DigitsValue(x + y) == DigitsValue(x) * 100 + DigitsValue(y)
  {
    DigitsValueSnoc(x, y[0]);
    DigitsValueSnoc(x + [y[0]], y[1]);
    assert x + [y[0]] + [y[1]] == x + y;
    DigitsValuePair(y[0], y[1]);
    assert [y[0], y[1]] == y;
  }

  lemma Pad4Value(n: nat)
    requires n < 10000
    ensures DigitsValue(Pad4(n)) == n
  {
    DigitsValueAppend2(Pad2(n / 100), Pad2(n % 100));
    Pad2Value(n / 100);
    Pad2Value(n % 100);
  }

  lemma DigitRoundTrip(c: char)
    requires IsDigit(c)
    ensures DigitChar(DigitValue(c)) == c
  {
  }

  lemma Pad2OfValue(s: string)
    requires |s| == 2 && AllDigits(s)
    ensures DigitsValue(s) < 100 && Pad2(DigitsValue(s)) == s
  {
    DigitsValuePair(s[0], s[1]);
    assert [s[0], s[1]] == s;
    DigitRoundTrip(s[0]);
    DigitRoundTrip(s[1]);
  }

  lemma Hundreds(h: nat, l: nat)
    requires h < 100 && l < 100
    ensures (h * 100 + l) / 100 == h && (h * 100 + l) % 100 == l
  {
  }

  lemma Pad4OfValue(s: string)
    requires |s| == 4 && AllDigits(s)
    ensures DigitsValue(s) < 10000 && Pad4(DigitsValue(s)) == s
  {
    var hi, lo := s[..2], s[2..];
    assert s == hi + lo;
    DigitsValueAppend2(hi, lo);
    Pad2OfValue(hi);
    Pad2OfValue(lo);
    var h, l := DigitsValue(hi), DigitsValue(lo);
    Hundreds(h, l);
    assert DigitsValue(s) == h * 100 + l;
  }

  /** Reading back a written time gives that time. */
  lemma ParseFormat(t: Time)
    ensures Parse(Format(t)) == Some(t)
  {
    var s := Format(t);
    assert s[0..4] == Pad4(t.year);
    assert s[5..7] == Pad2(t.month);
    assert s[8..10] == Pad2(t.day);
    assert s[11..13] == Pad2(t.hour);
    assert s[14..16] == Pad2(t.minute);
    Pad4Value(t.year);
    Pad2Value(t.month);
    Pad2Value(t.day);
    Pad2Value(t.hour);
    Pad2Value(t.minute);
  }

  /** Every string the parser accepts is the written form of its time, so
      a booking message repeats the time exactly as the input gave it. */
  lemma FormatParse(s: string)
    requires Parse(s).Some?
    ensures Format(Parse(s).value) == s
  {
    Pad4OfValue(s[0..4]);
    Pad2OfValue(s[5..7]);
    Pad2OfValue(s[8..10]);
    Pad2OfValue(s[11..13]);
    Pad2OfValue(s[14..16]);
    var t := Parse(s).value;
    var f := Format(t);
    assert f[0..4] == s[0..4];
    assert f[5..7] == s[5..7];
    assert f[8..10] == s[8..10];
    assert f[11..13] == s[11..13];
    assert f[14..16] == s[14..16];
    assert forall k :: 0 <= k < 16 ==> f[k] == s[k] by {
      forall k | 0 <= k < 16 ensures f[k] == s[k] {
        if k < 4 { assert f[k] == f[0..4][k]; assert s[k] == s[0..4][k]; }
        else if 5 <= k < 7 { assert f[k] == f[5..7][k - 5]; assert s[k] == s[5..7][k - 5]; }
        else if 8 <= k < 10 { assert f[k] == f[8..10][k - 8]; assert s[k] == s[8..10][k - 8]; }
        else if 11 <= k < 13 { assert f[k] == f[11..13][k - 11]; assert s[k] == s[11..13][k - 11]; }
        else if 14 <= k < 16 { assert f[k] == f[14..16][k - 14]; assert s[k] == s[14..16][k - 14]; }
      }
    }
  }
}
