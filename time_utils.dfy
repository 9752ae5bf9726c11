/**
 * Classification of a clock time "HH:MM" as a mirror, reversed or regular
 * hour, and its numerological root number (client/src/lib/timeUtils.ts).
 *
 * The source works on `time.split(':')`: the hours are the first field and
 * the minutes the second, which is `undefined` when there is no ':'.
 * Comparing the hours with `undefined` is simply false, but reversing an
 * undefined minutes field throws a TypeError; the model returns None for
 * that throw.
 */
module TimeUtils {
  import opened Wrappers
  import opened Text

  const MIRROR_HOUR := "Mirror Hour"
  const REVERSED_HOUR := "Reversed Hour"
  const REGULAR_HOUR := "Regular Hour"

  /** The text before the first ':' (the whole string when there is none). */
  function Hours(time: string): string {
    Split(time, ':')[0]
  }

  /** The text between the first and the second ':', undefined without a ':'. */
  function Minutes(time: string): Option<string> {
    var fields := Split(time, ':');
    if |fields| > 1 then Some(fields[1]) else None
  }

  /** `hours === minutes`. */
  predicate IsMirrorHour(time: string)
    ensures IsMirrorHour(time) ==> ':' in time
  {
    SplitCount(time, ':');
    Minutes(time) == Some(Hours(time))
  }

  /** `hours === minutes.split('').reverse().join('')`; None when `minutes` is undefined. */
  function IsReversedHour(time: string): (r: Option<bool>)
    ensures r.None? <==> ':' !in time
  {
    SplitCount(time, ':');
    match Minutes(time)
    case None => None
    case Some(m) => Some(Hours(time) == Reverse(m))
  }

  /** The label of a time; None when the reversed test throws. */
  function GetTimeType(time: string): (r: Option<string>)
    ensures r.None? <==> ':' !in time
    ensures r.Some? ==> r.value in {MIRROR_HOUR, REVERSED_HOUR, REGULAR_HOUR}
    ensures r == Some(MIRROR_HOUR) <==> IsMirrorHour(time)
    ensures r == Some(REVERSED_HOUR) <==> !IsMirrorHour(time) && IsReversedHour(time) == Some(true)
  {
    SplitCount(time, ':');
    if IsMirrorHour(time) then Some(MIRROR_HOUR)
    else
      match IsReversedHour(time)
      case None => None
      case Some(reversed) => if reversed then Some(REVERSED_HOUR) else Some(REGULAR_HOUR)
  }

  /**
   * The classification in terms of the text itself: a time is the join at ':'
   * of colon-free fields, the first being the hours and the second the minutes.
   */
  lemma {:induction false} TimeTypeOfFields(fields: seq<string>)
    requires |fields| >= 2
    requires forall i :: 0 <= i < |fields| ==> ':' !in fields[i]
    ensures var time := Join(fields, ':');
      && (IsMirrorHour(time) <==> fields[0] == fields[1])
      && IsReversedHour(time) == Some(fields[0] == Reverse(fields[1]))
      && GetTimeType(time) == Some(
           if fields[0] == fields[1] then MIRROR_HOUR
           else if fields[0] == Reverse(fields[1]) then REVERSED_HOUR
           else REGULAR_HOUR)
  {
    var time := Join(fields, ':');
    SplitJoin(fields, ':');
    assert Hours(time) == fields[0] && Minutes(time) == Some(fields[1]);
    SplitCount(time, ':');
  }

  /** Without a ':' the time has no minutes: not a mirror hour, and the reversed test throws. */
  lemma NoColonThrows(time: string)
    requires ':' !in time
    ensures !IsMirrorHour(time) && GetTimeType(time).None?
  {
    SplitCount(time, ':');
  }

  /** The label of "HH:MM" from its two fields. */
  lemma TimeTypeOfHoursMinutes(h: string, m: string)
    requires ':' !in h && ':' !in m
    ensures GetTimeType(h + ":" + m) == Some(
      if h == m then MIRROR_HOUR else if h == Reverse(m) then REVERSED_HOUR else REGULAR_HOUR)
    ensures IsReversedHour(h + ":" + m) == Some(h == Reverse(m))
    ensures IsMirrorHour(h + ":" + m) <==> h == m
  {
    var fields := [h, m];
    assert fields[1..] == [m];
    assert Join(fields, ':') == h + ":" + m;
    TimeTypeOfFields(fields);
  }

  /** Mirror takes precedence: "11:11" also passes the reversed test but is a mirror hour. */
  lemma MirrorPrecedence()
    ensures IsReversedHour("11:11") == Some(true)
    ensures GetTimeType("11:11") == Some(MIRROR_HOUR)
  {
    assert "11:11" == "11" + ":" + "11";
    assert Reverse("11") == "11" by {
      assert Reverse("1") == "1";
    }
    TimeTypeOfHoursMinutes("11", "11");
  }

  /** "12:21" is a reversed hour. */
  lemma ReversedExample()
    ensures GetTimeType("12:21") == Some(REVERSED_HOUR)
  {
    assert "12:21" == "12" + ":" + "21";
    assert Reverse("21") == "12" by {
      assert Reverse("1") == "1";
      assert "21"[1..] == "1";
    }
    TimeTypeOfHoursMinutes("12", "21");
  }

  /** "12:34" is a regular hour. */
  lemma RegularExample()
    ensures GetTimeType("12:34") == Some(REGULAR_HOUR)
  {
    assert "12:34" == "12" + ":" + "34";
    assert Reverse("34") == "43" by {
      assert Reverse("4") == "4";
      assert "34"[1..] == "4";
    }
    TimeTypeOfHoursMinutes("12", "34");
  }

  /** `time.replace(':', '')`: a string pattern replaces only its first occurrence. */
  function RemoveFirstColon(s: string): (r: string)
    ensures ':' !in s ==> r == s
  {
    if s == [] then []
    else if s[0] == ':' then s[1..]
    else [s[0]] + RemoveFirstColon(s[1..])
  }

  /** `replace` drops the first ':' and keeps everything around it. */
  lemma RemoveFirstColonOf(h: string, t: string)
    requires ':' !in h
    ensures RemoveFirstColon(h + ":" + t) == h + t
  {
    assert h + ":" + t == h + ([':'] + t);
    RemoveFirstColonAfter(h, [':'] + t);
    assert ([':'] + t)[1..] == t;
  }

  /** A colon-free prefix passes through `replace` unchanged. */
  lemma {:induction false} RemoveFirstColonAfter(h: string, s: string)
    requires ':' !in h
    ensures RemoveFirstColon(h + s) == h + RemoveFirstColon(s)
  {
    if h != [] {
      var x := h + s;
      assert x[0] == h[0] && x[0] != ':';
      assert x[1..] == h[1..] + s;
      assert RemoveFirstColon(x) == [h[0]] + RemoveFirstColon(h[1..] + s);
      RemoveFirstColonAfter(h[1..], s);
      assert [h[0]] + (h[1..] + RemoveFirstColon(s)) == h + RemoveFirstColon(s);
    } else {
      assert h + s == s && h + RemoveFirstColon(s) == RemoveFirstColon(s);
    }
  }

  /** Removing the first ':' leaves one ':' fewer. */
  lemma {:induction false} RemoveFirstColonCount(s: string)
    requires ':' in s
    ensures Count(RemoveFirstColon(s), ':') == Count(s, ':') - 1
  {
    if s[0] != ':' {
      RemoveFirstColonCount(s[1..]);
      assert ([s[0]] + RemoveFirstColon(s[1..]))[1..] == RemoveFirstColon(s[1..]);
    }
  }

  /**
   * `Number(c)` for a one-character string: a digit gives its value, a
   * white-space character gives 0 (the empty string after trimming), and
   * anything else is NaN, here None.
   */
  function CharNumber(c: char): (r: Option<nat>)
    ensures IsDigit(c) ==> r == Some(DigitValue(c))
    ensures !IsDigit(c) ==> (r == Some(0) <==> IsJsSpace(c)) && (r.None? <==> !IsJsSpace(c))
    ensures r.Some? ==> r.value <= 9
  {
    if IsDigit(c) then Some(DigitValue(c))
    else if IsJsSpace(c) then Some(0)
    else None
  }

  /** `digits.reduce((acc, digit) => acc + digit, 0)` over the characters, NaN being absorbing. */
  function DigitSum(s: string): Option<nat> {
    if s == [] then Some(0)
    else
      match DigitSum(s[..|s| - 1])
      case None => None
      case Some(acc) =>
        match CharNumber(s[|s| - 1])
        case None => None
        case Some(d) => Some(acc + d)
  }

  /** A decimal rendering sums to at most its value, strictly less from 10 on, and keeps the value modulo 9. */
  lemma {:induction false} DigitSumOfDecimal(n: nat)
    ensures DigitSum(NatToString(n)).Some?
    ensures DigitSum(NatToString(n)).value <= n
    ensures n >= 10 ==> DigitSum(NatToString(n)).value < n
    ensures DigitSum(NatToString(n)).value % 9 == n % 9
    ensures n > 0 ==> DigitSum(NatToString(n)).value > 0
  {
    var s := NatToString(n);
    if n < 10 {
      assert s[..0] == [];
    } else {
      var q, d := n / 10, n % 10;
      DigitSumOfDecimal(q);
      assert s[..|s| - 1] == NatToString(q);
      var x := DigitSum(NatToString(q)).value;
      assert DigitSum(s) == Some(x + d);
      assert n == 10 * q + d;
      ModNine(x, q, d);
    }
  }

  lemma ModNine(x: int, q: int, d: int)
    requires x % 9 == q % 9
    ensures (x + d) % 9 == (10 * q + d) % 9
  {
    assert 10 * q + d == (x + d) + 9 * (q + q / 9 - x / 9);
  }

  /** How far `CalculateRootNumber` still has to go: the digit sum it is about to compute. */
  function RootMeasure(time: string): nat {
    DigitSum(RemoveFirstColon(time)).GetOr(0)
  }

  /**
   * `calculateRootNumber`: remove the first ':', sum the character values,
   * and while the sum exceeds 9 start again on its decimal rendering.
   * None stands for the NaN that a non-digit character produces.
   */
  function CalculateRootNumber(time: string): (r: Option<nat>)
    ensures r.Some? <==> DigitSum(RemoveFirstColon(time)).Some?
    ensures r.Some? ==> r.value <= 9
    ensures r.Some? ==> r.value % 9 == DigitSum(RemoveFirstColon(time)).value % 9
    ensures r.Some? ==> (r.value == 0 <==> DigitSum(RemoveFirstColon(time)).value == 0)
    ensures r.Some? && DigitSum(RemoveFirstColon(time)).value <= 9 ==>
      r.value == DigitSum(RemoveFirstColon(time)).value
    decreases RootMeasure(time)
  {
    match DigitSum(RemoveFirstColon(time))
    case None => None
    case Some(sum) =>
      if sum > 9 then
        DigitSumOfDecimal(sum);
        CalculateRootNumber(NatToString(sum))
      else Some(sum)
  }

  /** The root number is a fixed point: applied to its own decimal rendering it returns itself. */
  lemma RootNumberIdempotent(time: string)
    requires CalculateRootNumber(time).Some?
    ensures CalculateRootNumber(NatToString(CalculateRootNumber(time).value)) == CalculateRootNumber(time)
  {
    var d := CalculateRootNumber(time).value;
    var s := NatToString(d);
    assert s == [DigitChar(d)];
    assert ':' !in s;
    DigitSumOfDigit(DigitChar(d));
    RootOfSmallSum(s, d);
  }

  /** A one-digit string sums to its digit. */
  lemma DigitSumOfDigit(c: char)
    requires IsDigit(c)
    ensures DigitSum([c]) == Some(DigitValue(c))
  {
    DigitSumSnoc([], c);
    assert [] + [c] == [c];
  }

  /** A first sum of at most 9 is the root number. */
  lemma RootOfSmallSum(time: string, sum: nat)
    requires DigitSum(RemoveFirstColon(time)) == Some(sum) && sum <= 9
    ensures CalculateRootNumber(time) == Some(sum)
  {
  }

  /** A NaN stays NaN whatever follows. */
  lemma {:induction false} DigitSumAbsorbs(s: string, t: string)
    requires DigitSum(s).None?
    ensures DigitSum(s + t).None?
  {
    if t != [] {
      var init := t[..|t| - 1];
      DigitSumAbsorbs(s, init);
      assert (s + t)[..|s + t| - 1] == s + init;
    } else {
      assert s + t == s;
    }
  }

  /** Appending one character adds its value to the sum. */
  lemma DigitSumSnoc(s: string, c: char)
    ensures DigitSum(s + [c]) ==
      if DigitSum(s).Some? && CharNumber(c).Some? then Some(DigitSum(s).value + CharNumber(c).value) else None
  {
    assert (s + [c])[..|s|] == s;
  }

  /** A time made of decimal digits and exactly one ':' always has a root number. */
  lemma {:induction false} RootNumberOfDigitsAndOneColon(time: string)
    requires forall i :: 0 <= i < |time| ==> IsDigit(time[i]) || time[i] == ':'
    requires Count(time, ':') == 1
    ensures CalculateRootNumber(time).Some?
  {
    var s := RemoveFirstColon(time);
    RemovedColonLeavesDigits(time);
    RemoveFirstColonCount(time);
    assert ':' !in s;
    DigitsHaveSum(s);
  }

  lemma {:induction false} RemovedColonLeavesDigits(s: string)
    requires forall i :: 0 <= i < |s| ==> IsDigit(s[i]) || s[i] == ':'
    ensures forall i :: 0 <= i < |RemoveFirstColon(s)| ==>
      IsDigit(RemoveFirstColon(s)[i]) || RemoveFirstColon(s)[i] == ':'
  {
    if s != [] && s[0] != ':' {
      RemovedColonLeavesDigits(s[1..]);
      var r := RemoveFirstColon(s[1..]);
      assert RemoveFirstColon(s) == [s[0]] + r;
      assert forall i :: 1 <= i < |r| + 1 ==> ([s[0]] + r)[i] == r[i - 1];
    }
  }

  lemma {:induction false} DigitsHaveSum(s: string)
    requires forall i :: 0 <= i < |s| ==> IsDigit(s[i]) || s[i] == ':'
    requires ':' !in s
    ensures DigitSum(s).Some?
  {
    if s != [] {
      DigitsHaveSum(s[..|s| - 1]);
      assert IsDigit(s[|s| - 1]);
    }
  }

  lemma DigitSum1234()
    ensures DigitSum("1234") == Some(10)
  {
    DigitSumSnoc("", '1'); assert "" + ['1'] == "1";
    DigitSumSnoc("1", '2'); assert "1" + ['2'] == "12";
    DigitSumSnoc("12", '3'); assert "12" + ['3'] == "123";
    DigitSumSnoc("123", '4'); assert "123" + ['4'] == "1234";
  }

  lemma DigitSum1111()
    ensures DigitSum("1111") == Some(4)
  {
    DigitSumSnoc("", '1'); assert "" + ['1'] == "1";
    DigitSumSnoc("1", '1'); assert "1" + ['1'] == "11";
    DigitSumSnoc("11", '1'); assert "11" + ['1'] == "111";
    DigitSumSnoc("111", '1'); assert "111" + ['1'] == "1111";
  }

  /** The worked example 1+2+3+4 = 10, then 1+0 = 1. */
  lemma RootNumberOf1234()
    ensures CalculateRootNumber("12:34") == Some(1)
  {
    RemoveFirstColonOf("12", "34");
    assert "12" + ":" + "34" == "12:34" && "12" + "34" == "1234";
    DigitSum1234();
    assert NatToString(10) == "10" by {
      assert NatToString(1) == "1";
    }
    assert RemoveFirstColon("10") == "10";
    DigitSum10();
  }

  lemma DigitSum10()
    ensures DigitSum("10") == Some(1)
  {
    DigitSumSnoc("", '1'); assert "" + ['1'] == "1";
    DigitSumSnoc("1", '0'); assert "1" + ['0'] == "10";
  }

  /** The worked example 1+1+1+1 = 4. */
  lemma RootNumberOf1111()
    ensures CalculateRootNumber("11:11") == Some(4)
  {
    RemoveFirstColonOf("11", "11");
    assert "11" + ":" + "11" == "11:11" && "11" + "11" == "1111";
    DigitSum1111();
    RootOfSmallSum("11:11", 4);
  }

  /** Only the first ':' is removed, so any second one makes the sum NaN. */
  lemma SecondColonIsNaN(h: string, m: string, t: string)
    requires ':' !in h
    ensures CalculateRootNumber(h + ":" + m + ":" + t).None?
  {
    RemoveFirstColonOf(h, m + ":" + t);
    assert h + ":" + (m + ":" + t) == h + ":" + m + ":" + t;
    assert h + (m + ":" + t) == (h + m + ":") + t;
    DigitSumSnoc(h + m, ':');
    assert h + m + [':'] == h + m + ":";
    DigitSumAbsorbs(h + m + ":", t);
  }
}
