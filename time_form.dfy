/**
 * The time entry form (client/src/components/TimeForm.tsx): the schema's
 * pattern `^([0-1]?[0-9]|2[0-3]):[0-5][0-9]$` and the submit handler that
 * forwards the accepted value.
 */
module TimeForm {
  import opened Wrappers
  import opened Text
  import TimeUtils

  /** The hour group `[0-1]?[0-9]|2[0-3]`. */
  predicate HourField(h: string) {
    || (|h| == 1 && IsDigit(h[0]))
    || (|h| == 2 && '0' <= h[0] <= '1' && IsDigit(h[1]))
    || (|h| == 2 && h[0] == '2' && '0' <= h[1] <= '3')
  }

  /** The minutes `[0-5][0-9]`. */
  predicate MinuteField(m: string) {
    |m| == 2 && '0' <= m[0] <= '5' && IsDigit(m[1])
  }

  /**
   * The whole anchored pattern. Both hour alternatives are one or two
   * characters long, so the ':' sits at position 1 or 2.
   */
  predicate IsValidTime(s: string)
    ensures IsValidTime(s) ==> 4 <= |s| <= 5 && s[|s| - 3] == ':'
  {
    || (|s| == 4 && s[1] == ':' && HourField(s[..1]) && MinuteField(s[2..]))
    || (|s| == 5 && s[2] == ':' && HourField(s[..2]) && MinuteField(s[3..]))
  }

  /** Position of the ':' in an accepted time. */
  function ColonIndex(s: string): (k: nat)
    requires IsValidTime(s)
    ensures k < |s| && s[k] == ':'
  {
    if |s| == 4 then 1 else 2
  }

  function HourValue(s: string): nat
    requires IsValidTime(s)
  {
    DecimalValue(s[..ColonIndex(s)])
  }

  function MinuteValue(s: string): nat
    requires IsValidTime(s)
  {
    DecimalValue(s[ColonIndex(s) + 1..])
  }

  /** Two-digit minutes, zero padded. */
  function TwoDigits(m: nat): (s: string)
    requires m < 100
    ensures |s| == 2 && AllDigits(s)
  {
    [DigitChar(m / 10), DigitChar(m % 10)]
  }

  /**
   * The reference definition of the accepted texts: an hour below 24,
   * written with one digit or zero padded to two, a ':' and the minutes
   * below 60 in two digits.
   */
  function FormatTime(h: nat, m: nat, padded: bool): string
    requires h < 24 && m < 60
  {
    (if padded && h < 10 then "0" else "") + NatToString(h) + ":" + TwoDigits(m)
  }

  lemma NatToStringSmall(n: nat)
    requires n < 100
    ensures n < 10 ==> NatToString(n) == [DigitChar(n)]
    ensures n >= 10 ==> NatToString(n) == [DigitChar(n / 10), DigitChar(n % 10)]
  {
    if n >= 10 {
      assert NatToString(n / 10) == [DigitChar(n / 10)];
    }
  }

  /** Every formatted hour and minute is accepted. */
  lemma FormattedTimeIsValid(h: nat, m: nat, padded: bool)
    requires h < 24 && m < 60
    ensures IsValidTime(FormatTime(h, m, padded))
  {
    NatToStringSmall(h);
    var s := FormatTime(h, m, padded);
    if h < 10 && !padded {
      assert s == [DigitChar(h), ':'] + TwoDigits(m);
      assert s[..1] == [DigitChar(h)] && s[2..] == TwoDigits(m);
    } else if h < 10 {
      assert s == ['0', DigitChar(h), ':'] + TwoDigits(m);
      assert s[..2] == ['0', DigitChar(h)] && s[3..] == TwoDigits(m);
    } else {
      assert s == [DigitChar(h / 10), DigitChar(h % 10), ':'] + TwoDigits(m);
      assert s[..2] == [DigitChar(h / 10), DigitChar(h % 10)] && s[3..] == TwoDigits(m);
    }
  }

  lemma DecimalValueOne(a: char)
    requires IsDigit(a)
    ensures DecimalValue([a]) == DigitValue(a)
  {
    assert [a][..0] == [];
  }

  lemma DecimalValueTwo(a: char, b: char)
    requires IsDigit(a) && IsDigit(b)
    ensures DecimalValue([a, b]) == DigitValue(a) * 10 + DigitValue(b)
  {
    assert [a, b][..1] == [a];
    DecimalValueOne(a);
  }

  /** Accepted minutes read back as a number below 60 that renders to the same two digits. */
  lemma MinuteFieldFormatted(ms: string)
    requires MinuteField(ms)
    ensures DecimalValue(ms) < 60 && TwoDigits(DecimalValue(ms)) == ms
  {
    assert ms == [ms[0], ms[1]];
    DecimalValueTwo(ms[0], ms[1]);
  }

  lemma DigitRoundTrip(c: char)
    requires IsDigit(c)
    ensures DigitChar(DigitValue(c)) == c
  {
  }

  /** A one-digit hour renders back to itself. */
  lemma OneDigitHour(a: char)
    requires IsDigit(a)
    ensures DecimalValue([a]) < 10 && NatToString(DecimalValue([a])) == [a]
  {
    DecimalValueOne(a);
    DigitRoundTrip(a);
    NatToStringSmall(DigitValue(a));
  }

  /** A two-digit hour renders back to itself, with the leading zero added back below 10. */
  lemma TwoDigitHour(a: char, b: char)
    requires IsDigit(a) && IsDigit(b)
    ensures DecimalValue([a, b]) < 10 ==> a == '0' && "0" + NatToString(DecimalValue([a, b])) == [a, b]
    ensures DecimalValue([a, b]) >= 10 ==> NatToString(DecimalValue([a, b])) == [a, b]
  {
    DecimalValueTwo(a, b);
    DigitRoundTrip(a);
    DigitRoundTrip(b);
    var x, y := DigitValue(a), DigitValue(b);
    var v := x * 10 + y;
    NatToStringSmall(v);
    if v >= 10 {
      assert v / 10 == x && v % 10 == y;
    }
  }

  /** An accepted hour group reads back as an hour below 24 that renders to the same text. */
  lemma HourFieldFormatted(hs: string)
    requires HourField(hs)
    ensures DecimalValue(hs) < 24
    ensures |hs| == 1 ==> hs == NatToString(DecimalValue(hs))
    ensures |hs| == 2 && DecimalValue(hs) < 10 ==> hs == "0" + NatToString(DecimalValue(hs))
    ensures |hs| == 2 && DecimalValue(hs) >= 10 ==> hs == NatToString(DecimalValue(hs))
  {
    if |hs| == 1 {
      assert hs == [hs[0]];
      OneDigitHour(hs[0]);
    } else {
      assert hs == [hs[0], hs[1]];
      DecimalValueTwo(hs[0], hs[1]);
      TwoDigitHour(hs[0], hs[1]);
    }
  }

  /** Every accepted text is a formatted hour below 24 and minute below 60. */
  lemma ValidTimeIsFormatted(s: string)
    requires IsValidTime(s)
    ensures HourValue(s) < 24 && MinuteValue(s) < 60
    ensures s == FormatTime(HourValue(s), MinuteValue(s), |s| == 5)
  {
    var k := ColonIndex(s);
    var hs, ms := s[..k], s[k + 1..];
    MinuteFieldFormatted(ms);
    HourFieldFormatted(hs);
    assert s == hs + ":" + ms;
  }

  /** A decimal rendering of at least three digits belongs to a number of at least 100, and conversely. */
  lemma {:induction false} NatToStringLong(n: nat)
    ensures n >= 100 <==> |NatToString(n)| >= 3
  {
    if n >= 10 {
      NatToStringLong(n / 10);
    }
  }

  /** Hours from 24 on are rejected, whether of two digits or more. */
  lemma HourAbove23Rejected(h: nat, m: nat)
    requires h >= 24 && m < 60
    ensures !IsValidTime(NatToString(h) + ":" + TwoDigits(m))
  {
    var s := NatToString(h) + ":" + TwoDigits(m);
    NatToStringLong(h);
    if h < 100 {
      NatToStringSmall(h);
      assert s[2] == ':' && s[..2] == NatToString(h);
      assert h / 10 >= 2;
      assert h / 10 == 2 ==> h % 10 >= 4;
    }
  }

  /** An accepted time has a one- or two-character hour field and a two-character minutes field. */
  lemma ValidTimeFieldLengths(s: string)
    requires IsValidTime(s)
    ensures Split(s, ':') == [s[..ColonIndex(s)], s[ColonIndex(s) + 1..]]
    ensures 1 <= |TimeUtils.Hours(s)| <= 2
    ensures TimeUtils.Minutes(s).Some? && |TimeUtils.Minutes(s).value| == 2
  {
    var k := ColonIndex(s);
    var fields := [s[..k], s[k + 1..]];
    assert fields[1..] == [s[k + 1..]];
    assert Join(fields, ':') == s;
    assert ':' !in s[..k] && ':' !in s[k + 1..];
    SplitJoin(fields, ':');
  }

  /**
   * Every accepted time contains exactly one ':', so it can be classified
   * without the reversed test throwing, and it has a root number in 0..9.
   */
  lemma ValidTimeIsClassifiable(s: string)
    requires IsValidTime(s)
    ensures Count(s, ':') == 1
    ensures TimeUtils.GetTimeType(s).Some?
    ensures TimeUtils.CalculateRootNumber(s).Some? && TimeUtils.CalculateRootNumber(s).value <= 9
  {
    ValidTimeFieldLengths(s);
    SplitCount(s, ':');
    TimeUtils.RootNumberOfDigitsAndOneColon(s);
  }

  lemma Examples()
    ensures IsValidTime("9:05") && IsValidTime("09:05") && IsValidTime("23:59") && IsValidTime("0:00")
    ensures !IsValidTime("24:00") && !IsValidTime("123:00") && !IsValidTime("12:5") && !IsValidTime("12:60")
  {
    assert "9:05"[..1] == "9" && "9:05"[2..] == "05";
    assert "09:05"[..2] == "09" && "09:05"[3..] == "05";
    assert "23:59"[..2] == "23" && "23:59"[3..] == "59";
    assert "0:00"[..1] == "0" && "0:00"[2..] == "00";
    assert "24:00"[..2] == "24";
    assert "12:60"[3..] == "60";
  }

  /**
   * Submitting the form: the resolver validates the field against the
   * pattern, and only on success does the handler call `onSubmit`, with the
   * value unchanged. None: `onSubmit` is not called.
   */
  function Submit(time: string): (forwarded: Option<string>)
    ensures forwarded.Some? <==> IsValidTime(time)
    ensures forwarded.Some? ==> forwarded.value == time
  {
    if IsValidTime(time) then Some(time) else None
  }
}
