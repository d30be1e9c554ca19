/**
 * Timestamps of the log (`hours_to_datetime` in report.py) and the length of one session.
 *
 * The script turns `HHhMM` into a datetime with `time.strptime(s, "%Hh%M")`. Every timestamp
 * gets the same default date, so a timestamp is modelled as minutes since midnight and only
 * differences between two of them matter.
 */
module Clock {
  import opened Wrappers

  const MinutesPerHour := 60
  const MinutesPerDay := 1440

  /** A wall-clock time, in minutes since midnight. */
  type Minute = m: nat | m < 1440

  predicate IsDigit(c: char) {
    '0' <= c <= '9'
  }

  predicate AllDigits(d: string) {
    forall i :: 0 <= i < |d| ==> IsDigit(d[i])
  }

  function DigitValue(c: char): nat
    requires IsDigit(c)
  {
    c as int - '0' as int
  }

  function DigitChar(n: nat): (c: char)
    requires n < 10
    ensures IsDigit(c) && DigitValue(c) == n
  {
    ('0' as int + n) as char
  }

  function Pow10(w: nat): nat {
    if w == 0 then 1 else 10 * Pow10(w - 1)
  }

  /** The decimal value of a string of digits. */
  function Number(d: string): nat
    requires AllDigits(d)
  {
    if d == [] then 0 else 10 * Number(d[..|d| - 1]) + DigitValue(d[|d| - 1])
  }

  /** `n` written with exactly `w` digits, zero-padded on the left. */
  function Pad(n: nat, w: nat): (d: string)
    requires n < Pow10(w)
    ensures |d| == w && AllDigits(d) && Number(d) == n
  {
    if w == 0 then []
    else
      var d := Pad(n / 10, w - 1) + [DigitChar(n % 10)];
      assert d[..|d| - 1] == Pad(n / 10, w - 1);
      d
  }

  /** A string of `w` digits is the padded spelling of its own value. */
  lemma {:induction false} PadNumber(d: string)
    requires AllDigits(d)
    ensures Number(d) < Pow10(|d|) && Pad(Number(d), |d|) == d
  {
    if d != [] {
      var init, last := d[..|d| - 1], d[|d| - 1];
      assert AllDigits(init);
      PadNumber(init);
      var n, k := Number(d), Number(init);
      assert n == 10 * k + DigitValue(last);
      assert n / 10 == k && n % 10 == DigitValue(last);
      assert n < Pow10(|d|) by {
        assert k + 1 <= Pow10(|init|);
        assert 10 * (k + 1) <= 10 * Pow10(|init|);
      }
      assert DigitChar(DigitValue(last)) == last;
      assert d == init + [last];
    }
  }

  /**
   * One `%H` or `%M` field. strptime's patterns are `2[0-3]|[0-1]\d|\d` for the hour and
   * `[0-5]\d|\d` for the minute: one digit, or two digits whose value is below the limit.
   */
  function Field(d: string, limit: nat): (r: Option<nat>)
    ensures r.Some? ==> r.value < limit && 1 <= |d| <= 2 && AllDigits(d) && Number(d) == r.value
  {
    if 1 <= |d| <= 2 && AllDigits(d) && Number(d) < limit then Some(Number(d)) else None
  }

  /** The literal `h` of the format; strptime compiles its pattern case-insensitively. */
  predicate IsHourMark(c: char) {
    c == 'h' || c == 'H'
  }

  function Combine(hours: Option<nat>, minutes: Option<nat>): Option<Minute>
    requires hours.Some? ==> hours.value < 24
    requires minutes.Some? ==> minutes.value < 60
  {
    if hours.Some? && minutes.Some? then Some(hours.value * MinutesPerHour + minutes.value) else None
  }

  /**
   * `time.strptime(s, "%Hh%M")` as minutes since midnight, or None where strptime raises.
   * The hour field ends at the first `h`, which is the second or the third character; the
   * minute field must run to the end of the string.
   */
  function ParseClock(s: string): (r: Option<Minute>)
    ensures r.Some? ==> 3 <= |s| <= 5 && IsDigit(s[0]) && IsDigit(s[|s| - 1])
  {
    if |s| >= 3 && IsHourMark(s[1]) then Combine(Field(s[..1], 24), Field(s[2..], 60))
    else if |s| >= 4 && IsHourMark(s[2]) then Combine(Field(s[..2], 24), Field(s[3..], 60))
    else None
  }

  /** ParseClock reads the digits before the mark as the hour and the rest as the minute. */
  lemma {:induction false} ParseClockOfFields(hs: string, mark: char, ms: string)
    requires 1 <= |hs| <= 2 && AllDigits(hs) && 1 <= |ms| && IsHourMark(mark)
    ensures ParseClock(hs + [mark] + ms) == Combine(Field(hs, 24), Field(ms, 60))
  {
    var s := hs + [mark] + ms;
    var k := |hs|;
    assert s[..k] == hs;
    assert s[k + 1..] == ms;
    assert s[k] == mark;
    assert k == 2 ==> IsDigit(s[1]);
  }

  /** Every spelling of a time, padded or not, in either case of `h`, is accepted. */
  lemma {:induction false} ParseClockAccepts(h: nat, m: nat, hw: nat, mw: nat, mark: char)
    requires h < 24 && m < 60 && 1 <= hw <= 2 && 1 <= mw <= 2
    requires h < Pow10(hw) && m < Pow10(mw)
    requires IsHourMark(mark)
    ensures ParseClock(Pad(h, hw) + [mark] + Pad(m, mw)) == Some(h * MinutesPerHour + m)
  {
    var hs, ms := Pad(h, hw), Pad(m, mw);
    ParseClockOfFields(hs, mark, ms);
    FieldOfPad(h, hw, 24);
    FieldOfPad(m, mw, 60);
    CombineBoth(h, m);
  }

  lemma {:induction false} CombineBoth(h: nat, m: nat)
    requires h < 24 && m < 60
    ensures Combine(Some(h), Some(m)) == Some(h * MinutesPerHour + m)
  {
  }

  lemma {:induction false} FieldOfPad(n: nat, w: nat, limit: nat)
    requires 1 <= w <= 2 && n < Pow10(w) && n < limit
    ensures Field(Pad(n, w), limit) == Some(n)
  {
  }

  /** ... and nothing else is: an accepted string is exactly such a spelling of its value. */
  lemma {:induction false} ParseClockSpelling(s: string, t: Minute)
    requires ParseClock(s) == Some(t)
    ensures var k := if IsHourMark(s[1]) then 1 else 2;
            && k + 2 <= |s| <= k + 3
            && IsHourMark(s[k])
            && t / MinutesPerHour < Pow10(k)
            && s[..k] == Pad(t / MinutesPerHour, k)
            && t % MinutesPerHour < Pow10(|s| - k - 1)
            && s[k + 1..] == Pad(t % MinutesPerHour, |s| - k - 1)
  {
    var k := if IsHourMark(s[1]) then 1 else 2;
    SpellingFields(s, t);
    FieldSpelling(s[..k], 24, t / MinutesPerHour);
    FieldSpelling(s[k + 1..], 60, t % MinutesPerHour);
  }

  /** An accepted string splits at its mark into an hour field and a minute field. */
  lemma {:induction false} SpellingFields(s: string, t: Minute)
    requires ParseClock(s) == Some(t)
    ensures var k := if IsHourMark(s[1]) then 1 else 2;
            && k + 2 <= |s| <= k + 3
            && IsHourMark(s[k])
            && Field(s[..k], 24) == Some(t / MinutesPerHour)
            && Field(s[k + 1..], 60) == Some(t % MinutesPerHour)
  {
    var k := if IsHourMark(s[1]) then 1 else 2;
    var h, m := Field(s[..k], 24), Field(s[k + 1..], 60);
    assert h.Some? && m.Some?;
    HourAndMinute(h.value, m.value);
  }

  lemma {:induction false} HourAndMinute(h: nat, m: nat)
    requires m < MinutesPerHour
    ensures (h * MinutesPerHour + m) / MinutesPerHour == h
    ensures (h * MinutesPerHour + m) % MinutesPerHour == m
  {
  }

  /** An accepted field is the padded spelling of its value. */
  lemma {:induction false} FieldSpelling(d: string, limit: nat, v: nat)
    requires Field(d, limit) == Some(v)
    ensures v < Pow10(|d|) && d == Pad(v, |d|)
  {
    PadNumber(d);
  }

  const PreMidnight: Minute := 23 * MinutesPerHour + 59
  const Midnight: Minute := 0

  /** The two constants `_stop` parses, "23h59" and "00h00". */
  lemma {:induction false} MidnightConstants()
    ensures ParseClock("23h59") == Some(PreMidnight)
    ensures ParseClock("00h00") == Some(Midnight)
  {
    DigitalTime("23h59", 23, 59);
    DigitalTime("00h00", 0, 0);
  }

  /** A timestamp written as two digits, `h`, two digits. */
  lemma {:induction false} DigitalTime(s: string, h: nat, m: nat)
    requires |s| == 5 && s[2] == 'h'
    requires IsDigit(s[0]) && IsDigit(s[1]) && IsDigit(s[3]) && IsDigit(s[4])
    requires h == 10 * DigitValue(s[0]) + DigitValue(s[1]) && h < 24
    requires m == 10 * DigitValue(s[3]) + DigitValue(s[4]) && m < 60
    ensures ParseClock(s) == Some(h * MinutesPerHour + m)
  {
    TwoDigits(s[..2]);
    TwoDigits(s[3..]);
  }

  lemma {:induction false} TwoDigits(d: string)
    requires |d| == 2 && IsDigit(d[0]) && IsDigit(d[1])
    ensures AllDigits(d) && Number(d) == 10 * DigitValue(d[0]) + DigitValue(d[1])
  {
    assert forall i :: 0 <= i < 2 ==> IsDigit(d[i]);
    var init := d[..1];
    assert init[..0] == [] && init[0] == d[0];
    assert Number(init) == DigitValue(d[0]);
  }

  /**
   * The length of a session from `start` to `stop`, as `_stop` computes it. A stop that is
   * earlier on the clock than its start is taken to be on the next day:
   * (23:59 - start) + (stop - 00:00) + one minute.
   */
  function Duration(start: Minute, stop: Minute): (d: nat)
    ensures d < MinutesPerDay
    ensures d == (stop - start) % MinutesPerDay
    ensures (start + d) % MinutesPerDay == stop
  {
    if stop - start >= 0 then stop - start
    else (PreMidnight - start) + (stop - Midnight) + 1
  }

  /** A session is empty exactly when it stops at the minute it started. */
  lemma {:induction false} DurationZero(start: Minute, stop: Minute)
    ensures Duration(start, stop) == 0 <==> start == stop
  {
  }

  /** Going from a to b and on from b to a is one whole day, unless a and b coincide. */
  lemma {:induction false} DurationComplement(a: Minute, b: Minute)
    requires a != b
    ensures Duration(a, b) + Duration(b, a) == MinutesPerDay
  {
  }

  /** The overnight example: from 23h30 to 00h15 is 45 minutes. */
  lemma {:induction false} OvernightExample()
    ensures ParseClock("23h30") == Some(23 * MinutesPerHour + 30)
    ensures ParseClock("00h15") == Some(15)
    ensures Duration(23 * MinutesPerHour + 30, 15) == 45
  {
    DigitalTime("23h30", 23, 30);
    DigitalTime("00h15", 0, 15);
  }
}
