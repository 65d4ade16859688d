/**
 * Wall-clock instants as `datetime.now()` yields them, truncated to the
 * second, and the two `strftime` layouts the application writes:
 * `%Y%m%d_%H%M%S` in evaluation record names and `%Y-%m-%d %H:%M:%S` in the
 * session history.
 */
module Timestamps {
  import opened Strings

  datatype DateTime = DateTime(year: nat, month: nat, day: nat, hour: nat, minute: nat, second: nat)

  predicate IsLeapYear(year: nat) {
    year % 4 == 0 && (year % 100 != 0 || year % 400 == 0)
  }

  function DaysInMonth(year: nat, month: nat): nat {
    if month == 2 then (if IsLeapYear(year) then 29 else 28)
    else if month == 4 || month == 6 || month == 9 || month == 11 then 30
    else 31
  }

  /** A calendar date and time whose year has four digits. */
  predicate IsValid(t: DateTime) {
    && 1000 <= t.year <= 9999
    && 1 <= t.month <= 12
    && 1 <= t.day <= DaysInMonth(t.year, t.month)
    && t.hour < 24 && t.minute < 60 && t.second < 60
  }

  type Timestamp = t: DateTime | IsValid(t) witness DateTime(2000, 1, 1, 0, 0, 0)

  /** Chronological order: field by field, most significant first. */
  predicate Earlier(a: DateTime, b: DateTime) {
    || a.year < b.year
    || (a.year == b.year && a.month < b.month)
    || (a.year == b.year && a.month == b.month && a.day < b.day)
    || (a.year == b.year && a.month == b.month && a.day == b.day && a.hour < b.hour)
    || (a.year == b.year && a.month == b.month && a.day == b.day && a.hour == b.hour && a.minute < b.minute)
    || (a.year == b.year && a.month == b.month && a.day == b.day && a.hour == b.hour && a.minute == b.minute
        && a.second < b.second)
  }

  function Pow10(w: nat): (r: nat)
    ensures r >= 1
  {
    if w == 0 then 1 else 10 * Pow10(w - 1)
  }

  function DigitChar(d: nat): (c: char)
    requires d < 10
    ensures '0' <= c <= '9'
  {
    ('0' as int + d) as char
  }

  /** `n` written in decimal with exactly `w` digits, zero-padded on the left. */
  function Digits(n: nat, w: nat): (s: string)
    requires n < Pow10(w)
    ensures |s| == w
    ensures forall i :: 0 <= i < |s| ==> '0' <= s[i] <= '9'
  {
    if w == 0 then "" else Digits(n / 10, w - 1) + [DigitChar(n % 10)]
  }

  /** `strftime("%Y%m%d_%H%M%S")` */
  function Stamp(t: Timestamp): (s: string)
    ensures |s| == 15 && s[8] == '_'
    ensures forall i :: 0 <= i < 15 && i != 8 ==> '0' <= s[i] <= '9'
  {
    Date(t) + ("_" + Clock(t))
  }

  /** The date part of a stamp, `%Y%m%d`. */
  function Date(t: Timestamp): (s: string)
    ensures |s| == 8
    ensures forall i :: 0 <= i < 8 ==> '0' <= s[i] <= '9'
  {
    Digits(t.year, 4) + (Digits(t.month, 2) + Digits(t.day, 2))
  }

  /** The time-of-day part of a stamp, `%H%M%S`. */
  function Clock(t: Timestamp): (s: string)
    ensures |s| == 6
    ensures forall i :: 0 <= i < 6 ==> '0' <= s[i] <= '9'
  {
    Digits(t.hour, 2) + (Digits(t.minute, 2) + Digits(t.second, 2))
  }

  /** `strftime("%Y-%m-%d %H:%M:%S")` */
  function LogStamp(t: Timestamp): (s: string)
    ensures |s| == 19 && s[4] == '-' && s[7] == '-' && s[10] == ' ' && s[13] == ':' && s[16] == ':'
    ensures s[..4] + s[5..7] + s[8..10] == Date(t) && s[11..13] + s[14..16] + s[17..] == Clock(t)
  {
    var date := Digits(t.year, 4) + "-" + Digits(t.month, 2) + "-" + Digits(t.day, 2);
    var clock := Digits(t.hour, 2) + ":" + Digits(t.minute, 2) + ":" + Digits(t.second, 2);
    FieldsBefore(Digits(t.year, 4), Digits(t.month, 2), Digits(t.day, 2), "-", " " + clock);
    FieldsAfter(date + " ", Digits(t.hour, 2), Digits(t.minute, 2), Digits(t.second, 2), ":");
    assert date + " " + clock == date + (" " + clock);
    date + " " + clock
  }

  /** Three fields written apart by a one-character separator, then more text. */
  lemma FieldsBefore(x: string, y: string, z: string, sep: string, rest: string)
    requires |y| == 2 && |z| == 2 && |sep| == 1
    ensures var w := x + sep + y + sep + z + rest;
      && w[..|x|] + w[|x| + 1..|x| + 3] + w[|x| + 4..|x| + 6] == x + (y + z)
      && w[|x|] == sep[0] && w[|x| + 3] == sep[0] && |w| == |x| + 6 + |rest|
  {
    var w := x + sep + y + sep + z + rest;
    assert w[..|x|] == x;
    assert w[|x| + 1..|x| + 3] == y;
    assert w[|x| + 4..|x| + 6] == z;
  }

  /** Text, then two-character fields written apart by a one-character separator. */
  lemma FieldsAfter(pre: string, x: string, y: string, z: string, sep: string)
    requires |x| == 2 && |y| == 2 && |sep| == 1
    ensures var w := pre + (x + sep + y + sep + z);
      && w[|pre|..|pre| + 2] + w[|pre| + 3..|pre| + 5] + w[|pre| + 6..] == x + (y + z)
      && w[|pre| + 2] == sep[0] && w[|pre| + 5] == sep[0] && w[..|pre|] == pre
  {
    var w := pre + (x + sep + y + sep + z);
    assert w[|pre|..|pre| + 2] == x;
    assert w[|pre| + 3..|pre| + 5] == y;
    assert w[|pre| + 6..] == z;
  }

  lemma DivModOrder(a: nat, b: nat)
    ensures a < b <==> a / 10 < b / 10 || (a / 10 == b / 10 && a % 10 < b % 10)
  {
    assert a == 10 * (a / 10) + a % 10;
    assert b == 10 * (b / 10) + b % 10;
  }

  /**
   * Zero-padded numbers of one width sort as strings exactly as they sort as
   * numbers, and two of them are the same string only for the same number.
   */
  lemma {:induction false} DigitsOrder(a: nat, b: nat, w: nat)
    requires a < Pow10(w) && b < Pow10(w)
    ensures Below(Digits(a, w), Digits(b, w)) <==> a < b
    ensures Digits(a, w) == Digits(b, w) <==> a == b
  {
    if w == 0 {
      assert Pow10(w) == 1;
    } else {
      var pa, pb := Digits(a / 10, w - 1), Digits(b / 10, w - 1);
      var ca, cb := DigitChar(a % 10), DigitChar(b % 10);
      DigitsOrder(a / 10, b / 10, w - 1);
      BelowAppend(pa, [ca], pb, [cb]);
      DivModOrder(a, b);
      DivModOrder(b, a);
      assert Below([ca], [cb]) <==> ca < cb;
      assert ca < cb <==> a % 10 < b % 10;
      if Digits(a, w) == Digits(b, w) {
        assert pa == Digits(a, w)[..w - 1] && pb == Digits(b, w)[..w - 1];
        assert ca == Digits(a, w)[w - 1] && cb == Digits(b, w)[w - 1];
        assert a == 10 * (a / 10) + a % 10 && b == 10 * (b / 10) + b % 10;
      }
    }
  }

  /** Two times of day compare as strings as they compare in time. */
  lemma ClockOrder(a: Timestamp, b: Timestamp)
    ensures Below(Clock(a), Clock(b)) <==>
      || a.hour < b.hour
      || (a.hour == b.hour && a.minute < b.minute)
      || (a.hour == b.hour && a.minute == b.minute && a.second < b.second)
    ensures Clock(a) == Clock(b) <==> a.hour == b.hour && a.minute == b.minute && a.second == b.second
  {
    DigitsOrder(a.hour, b.hour, 2);
    DigitsOrder(a.minute, b.minute, 2);
    DigitsOrder(a.second, b.second, 2);
    var sa, sb := Digits(a.second, 2), Digits(b.second, 2);
    LexPair(Digits(a.hour, 2), Digits(a.minute, 2) + sa, Digits(b.hour, 2), Digits(b.minute, 2) + sb);
    LexPair(Digits(a.minute, 2), sa, Digits(b.minute, 2), sb);
  }

  /** Two dates compare as strings as they compare in time. */
  lemma DateOrder(a: Timestamp, b: Timestamp)
    ensures Below(Date(a), Date(b)) <==>
      || a.year < b.year
      || (a.year == b.year && a.month < b.month)
      || (a.year == b.year && a.month == b.month && a.day < b.day)
    ensures Date(a) == Date(b) <==> a.year == b.year && a.month == b.month && a.day == b.day
  {
    DigitsOrder(a.year, b.year, 4);
    DigitsOrder(a.month, b.month, 2);
    DigitsOrder(a.day, b.day, 2);
    var da, db := Digits(a.day, 2), Digits(b.day, 2);
    LexPair(Digits(a.year, 4), Digits(a.month, 2) + da, Digits(b.year, 4), Digits(b.month, 2) + db);
    LexPair(Digits(a.month, 2), da, Digits(b.month, 2), db);
  }

  /** Record stamps sort as strings in chronological order. */
  lemma StampOrder(a: Timestamp, b: Timestamp)
    ensures Below(Stamp(a), Stamp(b)) <==> Earlier(a, b)
    ensures Stamp(a) == Stamp(b) <==> a == b
  {
    DateOrder(a, b);
    ClockOrder(a, b);
    SharedPrefix("_", Clock(a), Clock(b));
    LexPair(Date(a), "_" + Clock(a), Date(b), "_" + Clock(b));
  }

  /** Joining equal-width heads to tails orders and separates lexicographically. */
  lemma LexPair(x1: string, y1: string, x2: string, y2: string)
    requires |x1| == |x2|
    ensures Below(x1 + y1, x2 + y2) <==> Below(x1, x2) || (x1 == x2 && Below(y1, y2))
    ensures x1 + y1 == x2 + y2 <==> x1 == x2 && y1 == y2
  {
    BelowAppend(x1, y1, x2, y2);
    if x1 + y1 == x2 + y2 {
      assert x1 == (x1 + y1)[..|x1|] && x2 == (x2 + y2)[..|x2|];
      assert y1 == (x1 + y1)[|x1|..] && y2 == (x2 + y2)[|x2|..];
    }
  }
}
