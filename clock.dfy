/**
 * The game clock: two minutes of play shown as a workday from 9:00 to 17:00,
 * and the "HH:MM" text of the clock.
 */
module Clock {
  import opened TimeFormat

  /** Length of a game in milliseconds. */
  const GAME_DURATION: nat := 120000
  /** The game maps onto a workday of this many hours, from 9:00 to 17:00. */
  const WORK_DAY_HOURS: nat := 8
  const DAY_START_HOUR: nat := 9

  datatype ClockTime = ClockTime(hours: nat, minutes: nat)

  /**
   * The clock shown after `elapsed` milliseconds: elapsed game time scaled
   * onto the workday (one game minute is 250 ms), counted from 9:00.
   */
  function ClockAt(elapsed: nat): (c: ClockTime)
    ensures c.minutes < 60 && c.hours >= DAY_START_HOUR
    ensures (c.hours - DAY_START_HOUR) * 60 + c.minutes == elapsed / 250
  {
    var totalMinutes := elapsed * (WORK_DAY_HOURS * 60) / GAME_DURATION;
    assert totalMinutes == elapsed / 250;
    ClockTime(totalMinutes / 60 + DAY_START_HOUR, totalMinutes % 60)
  }

  function MinuteOfDay(c: ClockTime): nat {
    c.hours * 60 + c.minutes
  }

  /** The clock runs from 09:00 to 17:00 over a game and never goes back. */
  lemma ClockSpansWorkday(e1: nat, e2: nat)
    requires e1 <= e2
    ensures ClockAt(0) == ClockTime(9, 0)
    ensures ClockAt(GAME_DURATION) == ClockTime(17, 0)
    ensures MinuteOfDay(ClockAt(e1)) <= MinuteOfDay(ClockAt(e2))
  {
  }

  /** `padStart(2, '0')`. */
  function Pad2(s: string): string {
    if |s| < 2 then seq(2 - |s|, _ => '0') + s else s
  }

  /** The "HH:MM" text of the clock. */
  function TimeString(c: ClockTime): string {
    Pad2(Decimal(c.hours)) + ":" + Pad2(Decimal(c.minutes))
  }

  lemma Pad2Value(n: nat)
    requires n < 100
    ensures |Pad2(Decimal(n))| == 2 && AllDigits(Pad2(Decimal(n)))
    ensures DecimalValue(Pad2(Decimal(n))) == n
  {
    DecimalRoundTrip(n);
    var d := Decimal(n);
    if n < 10 {
      var p := Pad2(d);
      assert p == ['0'] + d;
      assert p[..1] == ['0'];
      assert DecimalValue(p[..1][..0]) == 0;
    } else {
      assert |Decimal(n / 10)| == 1;
    }
  }

  /**
   * During a game the clock reads as five characters "HH:MM" whose two
   * digit pairs are the hour and the minute.
   */
  lemma TimeStringDuringGame(elapsed: nat)
    requires elapsed <= GAME_DURATION
    ensures var s := TimeString(ClockAt(elapsed));
      |s| == 5 && s[2] == ':' && AllDigits(s[..2]) && AllDigits(s[3..])
      && DecimalValue(s[..2]) == ClockAt(elapsed).hours
      && DecimalValue(s[3..]) == ClockAt(elapsed).minutes
  {
    var c := ClockAt(elapsed);
    ClockSpansWorkday(elapsed, GAME_DURATION);
    Pad2Value(c.hours);
    Pad2Value(c.minutes);
    var s := TimeString(c);
    assert s[..2] == Pad2(Decimal(c.hours));
    assert s[3..] == Pad2(Decimal(c.minutes));
  }
}
