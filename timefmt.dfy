/**
 * Numbers as decimal text and `formatTime`, the display of booked minutes in
 * the accounting ledger, with a reader that recovers the minutes from it.
 * Numbers are rendered in decimal without sign, which is all JavaScript's
 * `String(n)` produces for the non-negative integers that reach this text.
 */
module TimeFormat {
  import opened Wrappers
  import Sequences

  predicate IsDigit(c: char) {
    '0' <= c <= '9'
  }

  predicate AllDigits(s: string) {
    forall i :: 0 <= i < |s| ==> IsDigit(s[i])
  }

  /** Decimal digits as `String(n)` writes them: at least one, and no leading zero unless the number is 0. */
  predicate Canonical(s: string) {
    0 < |s| && AllDigits(s) && (|s| > 1 ==> s[0] != '0')
  }

  /** `String(n)` for a natural number: its decimal digits, most significant first. */
  function Decimal(n: nat): (s: string)
    ensures |s| > 0 && AllDigits(s)
    ensures n < 10 <==> |s| == 1
    ensures n >= 10 ==> s[0] != '0'
  {
    if n < 10 then [('0' as int + n) as char]
    else Decimal(n / 10) + [('0' as int + n % 10) as char]
  }

  /** The number a string of decimal digits denotes. */
  function DecimalValue(s: string): nat
    requires AllDigits(s)
  {
    if |s| == 0 then 0
    else DecimalValue(s[..|s| - 1]) * 10 + (s[|s| - 1] as int - '0' as int)
  }

  lemma {:induction false} DecimalRoundTrip(n: nat)
    ensures DecimalValue(Decimal(n)) == n
  {
    var s := Decimal(n);
    if n >= 10 {
      DecimalRoundTrip(n / 10);
      assert s[..|s| - 1] == Decimal(n / 10);
    }
  }

  /** Digits that do not start with a zero denote a positive number. */
  lemma {:induction false} LeadingDigitPositive(s: string)
    requires 0 < |s| && AllDigits(s) && s[0] != '0'
    ensures DecimalValue(s) > 0
  {
    if |s| > 1 {
      var p := s[..|s| - 1];
      assert p[0] == s[0];
      LeadingDigitPositive(p);
    }
  }

  /** Canonical digits are exactly what Decimal writes for their value. */
  lemma {:induction false} DecimalOfCanonical(s: string)
    requires Canonical(s)
    ensures Decimal(DecimalValue(s)) == s
  {
    if |s| > 1 {
      var p := s[..|s| - 1];
      assert p[0] == s[0];
      assert Canonical(p);
      DecimalOfCanonical(p);
      LeadingDigitPositive(p);
      var v, d := DecimalValue(p), s[|s| - 1] as int - '0' as int;
      var n := v * 10 + d;
      assert n / 10 == v && n % 10 == d;
      assert s == p + [s[|s| - 1]];
    }
  }

  /** `formatTime`: "{h}h {m}min" once there is a whole hour, "{m}min" before. */
  function FormatTime(minutes: nat): string {
    var hours := minutes / 60;
    var mins := minutes % 60;
    if hours > 0 then Decimal(hours) + "h " + Decimal(mins) + "min"
    else Decimal(mins) + "min"
  }

  /**
   * Reads a ledger display: "{h}h {m}min" with h above 0, or "{m}min", where
   * m is below 60 and neither number has a leading zero. These are exactly
   * the texts FormatTime writes.
   */
  function ParseTime(s: string): Option<nat> {
    if |s| < 3 || s[|s| - 3..] != "min" then None
    else ParseDuration(s[..|s| - 3])
  }

  /** "{h}h {m}" or "{m}", the part of a ledger display before "min". */
  function ParseDuration(body: string): Option<nat> {
    var k := Sequences.IndexOf(body, 'h');
    if k == -1 then
      match ParseNumber(body)
      case Some(m) => if m < 60 then Some(m) else None
      case None => None
    else if k + 2 <= |body| && body[k + 1] == ' ' then
      match (ParseNumber(body[..k]), ParseNumber(body[k + 2..]))
      case (Some(h), Some(m)) => if h > 0 && m < 60 then Some(h * 60 + m) else None
      case _ => None
    else None
  }

  function ParseNumber(s: string): Option<nat> {
    if Canonical(s) then Some(DecimalValue(s)) else None
  }

  /** The first 'h' of a string that starts with digits is the one right after them. */
  lemma FirstHAfterDigits(s: string, k: int)
    requires 0 <= k < |s| && AllDigits(s[..k]) && s[k] == 'h'
    ensures Sequences.IndexOf(s, 'h') == k
  {
    assert 'h' !in s[..k] by {
      forall i | 0 <= i < k ensures s[..k][i] != 'h' { assert IsDigit(s[..k][i]); }
    }
  }

  /** Appending "min" to a readable duration gives a readable display. */
  lemma ParseTimeSuffix(body: string, v: nat)
    requires ParseDuration(body) == Some(v)
    ensures ParseTime(body + "min") == Some(v)
  {
    var s := body + "min";
    assert s[..|s| - 3] == body;
    assert s[|s| - 3..] == "min";
  }

  /** Digits alone read back as their value, when it is below 60. */
  lemma ParseDurationDigits(dm: string, m: nat)
    requires Canonical(dm) && DecimalValue(dm) == m && m < 60
    ensures ParseDuration(dm) == Some(m)
  {
    assert 'h' !in dm by {
      forall i | 0 <= i < |dm| ensures dm[i] != 'h' { assert IsDigit(dm[i]); }
    }
  }

  lemma ParseDurationSplit(body: string, k: int, dh: string, dm: string, h: nat, m: nat)
    requires k == Sequences.IndexOf(body, 'h') && 0 <= k && k + 2 <= |body| && body[k + 1] == ' '
    requires Canonical(dh) && Canonical(dm) && 0 < h && m < 60
    requires DecimalValue(dh) == h && DecimalValue(dm) == m
    requires body[..k] == dh && body[k + 2..] == dm
    ensures ParseDuration(body) == Some(h * 60 + m)
  {
  }

  /** "{h}h {m}" reads back as h hours and m minutes. */
  lemma ParseDurationHoursMinutes(dh: string, dm: string, h: nat, m: nat)
    requires Canonical(dh) && Canonical(dm) && 0 < h && m < 60
    requires DecimalValue(dh) == h && DecimalValue(dm) == m
    ensures ParseDuration(dh + "h " + dm) == Some(h * 60 + m)
  {
    var body := dh + "h " + dm;
    var k := |dh|;
    assert body[..k] == dh;
    assert body[k + 2..] == dm;
    assert body[k] == 'h' && body[k + 1] == ' ';
    FirstHAfterDigits(body, k);
    ParseDurationSplit(body, k, dh, dm, h, m);
  }

  /**
   * The ledger display loses nothing: reading back the text FormatTime
   * shows gives the booked minutes.
   */
  lemma FormatTimeRoundTrip(minutes: nat)
    ensures ParseTime(FormatTime(minutes)) == Some(minutes)
  {
    var hours, mins := minutes / 60, minutes % 60;
    var dm := Decimal(mins);
    DecimalRoundTrip(mins);
    if hours > 0 {
      var dh := Decimal(hours);
      DecimalRoundTrip(hours);
      ParseDurationHoursMinutes(dh, dm, hours, mins);
      ParseTimeSuffix(dh + "h " + dm, minutes);
      assert FormatTime(minutes) == dh + "h " + dm + "min";
    } else {
      ParseDurationDigits(dm, mins);
      ParseTimeSuffix(dm, minutes);
      assert FormatTime(minutes) == dm + "min";
    }
  }

  /** A display without an hour field is what FormatTime writes for its minutes. */
  lemma ParsedMinutesFormat(body: string, v: nat)
    requires Sequences.IndexOf(body, 'h') == -1 && ParseDuration(body) == Some(v)
    ensures FormatTime(v) == body + "min"
  {
    DecimalOfCanonical(body);
  }

  /** A display with an hour field is what FormatTime writes for its minutes. */
  lemma ParsedHoursFormat(body: string, k: nat, v: nat)
    requires Sequences.IndexOf(body, 'h') == k && ParseDuration(body) == Some(v)
    ensures FormatTime(v) == body + "min"
  {
    var dh, dm := body[..k], body[k + 2..];
    var h, m := DecimalValue(dh), DecimalValue(dm);
    assert v == h * 60 + m && 0 < h && m < 60;
    assert v / 60 == h && v % 60 == m;
    DecimalOfCanonical(dh);
    DecimalOfCanonical(dm);
    assert body == dh + "h " + dm;
  }

  /**
   * The reader accepts nothing else: any text it reads as v minutes is the
   * text FormatTime writes for v, so the hour split and the digits are fixed.
   */
  lemma ParseTimeOnlyFormatted(s: string, v: nat)
    requires ParseTime(s) == Some(v)
    ensures FormatTime(v) == s
  {
    var body := s[..|s| - 3];
    assert s == body + "min";
    var k := Sequences.IndexOf(body, 'h');
    if k == -1 {
      ParsedMinutesFormat(body, v);
    } else {
      ParsedHoursFormat(body, k, v);
    }
  }
}
