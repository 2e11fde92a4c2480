/**
 * `toHH`: the one-based half-hour period of a time of day written "HH:MM...".
 * The hour is `int(time[0:2])`, the minute `int(time[3:5])`, and the period is
 * `Hour * 2 + floor(Mins / 30) + 1`. Nothing else of the string is looked at:
 * the `try` around `str(time)` builds a `KeyError` and drops it, so it never fails.
 */
module HalfHour {
  import opened Wrappers

  /** What `toHH` raises: `int(...)` rejects the hour or the minute field. */
  datatype HalfHourError = HourNotInteger | MinuteNotInteger

  predicate IsDigit(c: char) { '0' <= c <= '9' }

  /** The ASCII characters that Python's `int()` strips as white space. */
  predicate IsSpace(c: char) { c == ' ' || '\t' <= c <= '\r' || '\U{1C}' <= c <= '\U{1F}' }

  predicate IsSign(c: char) { c == '+' || c == '-' }

  function DigitValue(c: char): (d: nat)
    requires IsDigit(c)
    ensures d <= 9
  {
    (c as int) - ('0' as int)
  }

  /** Python's `s[i:j]` for `0 <= i <= j`: both bounds are clamped to the length. */
  function Slice(s: string, i: nat, j: nat): (r: string)
    requires i <= j
    ensures |r| == (if j <= |s| then j - i else if i <= |s| then |s| - i else 0)
    ensures forall k | 0 <= k < |r| :: r[k] == s[i + k]
  {
    var hi := if j <= |s| then j else |s|;
    var lo := if i <= hi then i else hi;
    s[lo..hi]
  }

  /**
   * Python's `int()` on a string of at most two characters, the width of both
   * fields `toHH` reads. Once white space is stripped, an optional sign and at
   * least one decimal digit must remain; the underscores `int()` allows between
   * digits cannot occur in a valid string this short.
   */
  function ParseField(s: string): (r: Option<int>)
    requires |s| <= 2
    ensures |s| == 2 && IsDigit(s[0]) && IsDigit(s[1]) ==> r == Some(10 * DigitValue(s[0]) + DigitValue(s[1]))
    ensures |s| == 1 && IsDigit(s[0]) ==> r == Some(DigitValue(s[0]))
    ensures |s| == 2 && (IsSpace(s[0]) || s[0] == '+') && IsDigit(s[1]) ==> r == Some(DigitValue(s[1]))
    ensures |s| == 2 && s[0] == '-' && IsDigit(s[1]) ==> r == Some(-(DigitValue(s[1]) as int))
    ensures |s| == 2 && IsDigit(s[0]) && IsSpace(s[1]) ==> r == Some(DigitValue(s[0]))
    ensures (forall k | 0 <= k < |s| :: !IsDigit(s[k])) ==> r == None
    ensures |s| == 2 && IsSign(s[1]) ==> r == None
    ensures (exists k | 0 <= k < |s| :: !IsDigit(s[k]) && !IsSpace(s[k]) && !IsSign(s[k])) ==> r == None
    ensures |s| == 0 ==> r == None
    ensures r.Some? ==> -9 <= r.value <= 99
  {
    if |s| == 0 then None
    else if |s| == 1 then (if IsDigit(s[0]) then Some(DigitValue(s[0])) else None)
    else if IsDigit(s[0]) && IsDigit(s[1]) then Some(10 * DigitValue(s[0]) + DigitValue(s[1]))
    else if IsSpace(s[0]) && IsDigit(s[1]) then Some(DigitValue(s[1]))
    else if IsDigit(s[0]) && IsSpace(s[1]) then Some(DigitValue(s[0]))
    else if s[0] == '+' && IsDigit(s[1]) then Some(DigitValue(s[1]))
    else if s[0] == '-' && IsDigit(s[1]) then Some(0 - DigitValue(s[1]) as int)
    else None
  }

  /** A time of day whose hour and minute fields are two decimal digits each. */
  predicate IsClockTime(time: string)
  {
    |time| >= 5 && IsDigit(time[0]) && IsDigit(time[1]) && IsDigit(time[3]) && IsDigit(time[4])
  }

  function ClockHour(time: string): nat
    requires IsClockTime(time)
  {
    10 * DigitValue(time[0]) + DigitValue(time[1])
  }

  function ClockMinute(time: string): nat
    requires IsClockTime(time)
  {
    10 * DigitValue(time[3]) + DigitValue(time[4])
  }

  /** Minutes since midnight of a clock time. */
  function MinuteOfDay(time: string): nat
    requires IsClockTime(time)
  {
    60 * ClockHour(time) + ClockMinute(time)
  }

  /**
   * `toHH(time)`. `math.floor(Mins / 30)` is floor division by 30, which is
   * Dafny's `/` for a positive divisor, also for the negative minutes that a
   * field such as "-5" yields.
   */
  function ToHH(time: string): (r: Result<int, HalfHourError>)
    ensures IsClockTime(time) ==> r == Ok(ClockHour(time) * 2 + ClockMinute(time) / 30 + 1)
    ensures IsClockTime(time) && ClockHour(time) <= 23 && ClockMinute(time) <= 59 ==> r.Ok? && 1 <= r.value <= 48
    ensures |time| <= 3 ==> r.Err?
  {
    var hour := ParseField(Slice(time, 0, 2));
    var mins := ParseField(Slice(time, 3, 5));
    if hour.None? then Err(HourNotInteger)
    else if mins.None? then Err(MinuteNotInteger)
    else Ok(hour.value * 2 + mins.value / 30 + 1)
  }

  /** Only characters 0-1 and 3-4 of the string decide the result. */
  lemma ToHHReadsOnlyFields(t1: string, t2: string)
    requires |t1| >= 5 && |t2| >= 5
    requires t1[0] == t2[0] && t1[1] == t2[1] && t1[3] == t2[3] && t1[4] == t2[4]
    ensures ToHH(t1) == ToHH(t2)
  {
    assert Slice(t1, 0, 2) == Slice(t2, 0, 2);
    assert Slice(t1, 3, 5) == Slice(t2, 3, 5);
  }

  /** A character in one of the four field positions that `int()` cannot accept is a failure. */
  lemma ToHHRejectsBadCharacter(time: string, k: nat)
    requires k in {0, 1, 3, 4} && k < |time|
    requires !IsDigit(time[k]) && !IsSpace(time[k]) && !IsSign(time[k])
    ensures ToHH(time).Err?
  {
    if k < 2 {
      assert Slice(time, 0, 2)[k] == time[k];
    } else {
      assert Slice(time, 3, 5)[k - 3] == time[k];
    }
  }

  /**
   * On a clock time the result names the half hour that contains the time:
   * period `p` covers the minutes `30 * (p - 1)` up to `30 * p`.
   */
  lemma ToHHCoversTime(time: string, p: int)
    requires IsClockTime(time) && ClockMinute(time) <= 59
    ensures ToHH(time) == Ok(p) <==> 30 * (p - 1) <= MinuteOfDay(time) < 30 * p
  {
    var h, m := ClockHour(time), ClockMinute(time);
    assert 60 * h + m == 30 * (2 * h + m / 30) + m % 30;
  }

  /** A later clock time never falls in an earlier period. */
  lemma ToHHMonotone(t1: string, t2: string)
    requires IsClockTime(t1) && IsClockTime(t2) && ClockMinute(t1) <= 59 && ClockMinute(t2) <= 59
    requires MinuteOfDay(t1) <= MinuteOfDay(t2)
    ensures ToHH(t1).value <= ToHH(t2).value
  {
    ToHHCoversTime(t1, ToHH(t1).value);
    ToHHCoversTime(t2, ToHH(t2).value);
  }

  function DigitChar(d: nat): (c: char)
    requires d <= 9
    ensures IsDigit(c) && DigitValue(c) == d
  {
    (('0' as int) + d) as char
  }

  /** The "HH:MM:00" time at which half-hour period `p` begins. */
  function PeriodStartTime(p: int): (time: string)
    requires 1 <= p <= 48
    ensures IsClockTime(time) && MinuteOfDay(time) == 30 * (p - 1)
  {
    var hour := (p - 1) / 2;
    var mins := 30 * ((p - 1) % 2);
    [DigitChar(hour / 10), DigitChar(hour % 10), ':', DigitChar(mins / 10), DigitChar(mins % 10), ':', '0', '0']
  }

  /** Every period 1..48 is reached, by the time at which it begins. */
  lemma ToHHPeriodStart(p: int)
    requires 1 <= p <= 48
    ensures ToHH(PeriodStartTime(p)) == Ok(p)
  {
    ToHHCoversTime(PeriodStartTime(p), p);
  }

  /** Clock times, including the out-of-range "99:99" that the code does not reject. */
  lemma ToHHExamples()
    ensures ToHH("00:00:00") == Ok(1)
    ensures ToHH("00:30:00") == Ok(2)
    ensures ToHH("23:30:00") == Ok(48)
    ensures ToHH("99:99") == Ok(202)
  {
    assert IsClockTime("00:00:00") && IsClockTime("00:30:00") && IsClockTime("23:30:00") && IsClockTime("99:99");
  }

  /** A field shorter than two digits: `int()` accepts "3", and rejects "7:". */
  lemma ToHHShortFieldExamples()
    ensures ToHH("12:3") == Ok(25)
    ensures ToHH("7:30:00") == Err(HourNotInteger)
  {
    assert Slice("12:3", 0, 2) == "12" && Slice("12:3", 3, 5) == "3";
    assert Slice("7:30:00", 0, 2) == "7:";
  }

  /** `int()` strips white space, so the hour field " 7" is 7. */
  lemma ToHHSpacePaddedExample()
    ensures ToHH(" 7:30:00") == Ok(16)
  {
    assert Slice(" 7:30:00", 0, 2) == " 7" && Slice(" 7:30:00", 3, 5) == "30";
    assert ParseField(" 7") == Some(7);
  }

  /** `int()` accepts a sign, and the floor of -5 / 30 is -1. */
  lemma ToHHSignedExample()
    ensures ToHH("-1:-5") == Ok(-2)
  {
    assert Slice("-1:-5", 0, 2) == "-1" && Slice("-1:-5", 3, 5) == "-5";
    assert ParseField("-1") == Some(-1) && ParseField("-5") == Some(-5);
  }
}
