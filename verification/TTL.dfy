/**
 TTL texts (FormatTTL and parseTTL in internal/environments/lease.go) and the part of Go's time.ParseDuration
 that reads them. Durations count nanoseconds.
 */
module TTL {
  import opened Text

  const SECOND: int := 1_000_000_000
  const MINUTE: int := 60 * SECOND
  const HOUR: int := 60 * MINUTE

  const MAX_INT64: int := 0x7fff_ffff_ffff_ffff
  const TWO_63: int := 0x8000_0000_0000_0000

  // ----- time.ParseDuration, without fractions -----

  /** The unit names of time.ParseDuration; both micro signs are accepted. */
  function UnitOf(unit: string): (size: Option<int>)
    ensures size.Some? ==> size.value >= 1
  {
    if |unit| == 1 then
      if unit[0] == 's' then Some(SECOND) else if unit[0] == 'm' then Some(MINUTE)
          else if unit[0] == 'h' then Some(HOUR) else None
    else if |unit| == 2 && unit[1] == 's' then
      if unit[0] == 'n' then Some(1)
      else if unit[0] == 'u' || unit[0] == '\U{00B5}' || unit[0] == '\U{03BC}' then Some(1_000)
      else if unit[0] == 'm' then Some(1_000_000)
      else None
    else None
  }

  /** How many of the leading characters are digits. */
  function DigitRun(s: string): (n: nat)
    ensures n <= |s| && AllDigits(s[..n])
    ensures n < |s| ==> !IsDigit(s[n])
  {
    if s == [] || !IsDigit(s[0]) then 0
    else
      var n := 1 + DigitRun(s[1..]);
      assert forall i | 0 < i < n :: s[i] == s[1..][i - 1];
      n
  }

  /** How many of the leading characters belong to a unit. */
  function UnitRun(s: string): (n: nat)
    ensures n <= |s|
    ensures forall i | 0 <= i < n :: !IsDigit(s[i]) && s[i] != '.'
    ensures n < |s| ==> IsDigit(s[n]) || s[n] == '.'
  {
    if s == [] || IsDigit(s[0]) || s[0] == '.' then 0 else 1 + UnitRun(s[1..])
  }

  /** One count with its unit, and what follows it. */
  function NextSegment(s: string): (segment: Option<(nat, string)>)
    ensures segment.Some? ==> segment.value.0 <= TWO_63 && |segment.value.1| < |s|
  {
    var n := DigitRun(s);
    var k := UnitRun(s[n..]);
    if n == 0 || k == 0 then None
    else
      match UnitOf(s[n..n + k])
      case None => None
      case Some(unit) => if Amount(Value(s[..n]), unit) > TWO_63 then None
          else Some((Amount(Value(s[..n]), unit), s[n + k..]))
  }

  function Amount(count: nat, unit: int): nat
    requires unit >= 1
  {
    count * unit
  }

  /** Adds up segments until nothing is left of the text. */
  function AddUp(next: string -> Option<(nat, string)>, s: string, sum: nat): Option<nat>
    decreases |s|
  {
    if s == "" then Some(sum)
    else
      match next(s)
      case None => None
      case Some((amount, rest)) =>
        if sum + amount > TWO_63 || |rest| >= |s| then None else AddUp(next, rest, sum + amount)
  }

  function ParseSegments(s: string): Option<nat> {
    AddUp(NextSegment, s, 0)
  }

  function ParseDuration(s: string): Option<int>
  {
    var negative := s != "" && s[0] == '-';
    var rest := if s != "" && (s[0] == '-' || s[0] == '+') then s[1..] else s;
    if rest == "0" then Some(0)
    else if rest == "" then None
    else
      match ParseSegments(rest)
      case None => None
      case Some(d) => if negative then Some(0 - d) else if d > MAX_INT64 then None else Some(d)
  }

  // ----- FormatTTL -----

  /** int(value.Round(time.Minute).Minutes()) for a non-negative duration; the whole minutes never leave 64 bits. */
  function RoundedMinutes(value: int): (minutes: nat)
    requires 0 <= value <= MAX_INT64
    ensures minutes * MINUTE <= MAX_INT64
    ensures minutes == value / MINUTE || minutes == value / MINUTE + 1
  {
    var r := value % MINUTE;
    if r + r < MINUTE then value / MINUTE else value / MINUTE + 1
  }

  /** The whole minutes a formatted TTL stands for. */
  function TTLMinutes(value: int): (minutes: nat)
    requires -TWO_63 <= value <= MAX_INT64
    ensures 1 <= minutes <= MAX_INT64 / MINUTE
  {
    if value < 0 then 1 else var minutes := RoundedMinutes(value); if minutes <= 0 then 1 else minutes
  }

  function FormatTTL(value: int): string
    requires -TWO_63 <= value <= MAX_INT64
  {
    MinutesText(TTLMinutes(value))
  }

  function MinutesText(total: nat): string {
    var hours := total / 60;
    var minutes := total - hours * 60;
    if hours > 0 && minutes > 0 then Digits(hours) + "h" + Digits(minutes) + "m"
    else if hours > 0 then Digits(hours) + "h"
    else Digits(minutes) + "m"
  }

  /** The pattern the CRD demands of a TTL: ^([0-9]+h)?([0-9]+m)?$ */
  ghost predicate MatchesTTLPattern(s: string) {
    exists h, m :: s == h + m && IsCount(h, 'h') && IsCount(m, 'm')
  }

  ghost predicate IsCount(s: string, unit: char) {
    s == "" || (|s| >= 2 && s[|s| - 1] == unit && AllDigits(s[..|s| - 1]))
  }

  lemma {:induction false} DigitRunOf(digits: string, rest: string)
    requires AllDigits(digits) && (rest == "" || !IsDigit(rest[0]))
    ensures DigitRun(digits + rest) == |digits|
  {
    if digits == "" {
      assert digits + rest == rest;
    } else {
      assert (digits + rest)[1..] == digits[1..] + rest;
      assert AllDigits(digits[1..]);
      DigitRunOf(digits[1..], rest);
    }
  }

  lemma SegmentParts(n: nat, unit: char, rest: string)
    requires !IsDigit(unit) && unit != '.' && (rest == "" || IsDigit(rest[0]))
    ensures var digits := Digits(n);
            var s := digits + [unit] + rest;
            && DigitRun(s) == |digits| && UnitRun(s[|digits|..]) == 1
            && s[..|digits|] == digits && s[|digits|..|digits| + 1] == [unit] && s[|digits| + 1..] == rest
  {
    var digits := Digits(n);
    var s := digits + [unit] + rest;
    assert s == digits + ([unit] + rest);
    DigitRunOf(digits, [unit] + rest);
    assert s[|digits|..] == [unit] + rest;
    assert ([unit] + rest)[1..] == rest;
  }

  /** A count and its unit are read off the front. */
  lemma SegmentRead(n: nat, unit: char, size: int, rest: string)
    requires UnitOf([unit]) == Some(size) && !IsDigit(unit) && unit != '.'
    requires rest == "" || IsDigit(rest[0])
    requires Amount(n, size) <= TWO_63
    ensures NextSegment(Digits(n) + [unit] + rest) == Some((Amount(n, size), rest))
  {
    SegmentParts(n, unit, rest);
    ValueOfDigits(n);
  }

  lemma MinutesFit(total: nat)
    requires total <= MAX_INT64 / MINUTE
    ensures total * MINUTE <= MAX_INT64
  {
  }

  lemma ReadsBackAlone(n: nat, unit: char, size: nat, sum: nat, amount: nat)
    requires UnitOf([unit]) == Some(size) && !IsDigit(unit) && unit != '.'
    requires amount == Amount(n, size) && sum + amount <= MAX_INT64
    ensures AddUp(NextSegment, Digits(n) + [unit], sum) == Some(sum + amount)
  {
    SegmentRead(n, unit, size, "");
    assert Digits(n) + [unit] + "" == Digits(n) + [unit];
    OneSegment(NextSegment, Digits(n) + [unit], amount, "", sum);
  }

  lemma HoursReadBack(hours: nat)
    requires hours * HOUR <= MAX_INT64
    ensures ParseSegments(Digits(hours) + "h") == Some(hours * HOUR)
  {
    ReadsBackAlone(hours, 'h', HOUR, 0, hours * HOUR);
  }

  lemma MinutesReadBack(minutes: nat)
    requires minutes * MINUTE <= MAX_INT64
    ensures ParseSegments(Digits(minutes) + "m") == Some(minutes * MINUTE)
  {
    ReadsBackAlone(minutes, 'm', MINUTE, 0, minutes * MINUTE);
  }

  lemma ReadsBackTogether(hours: nat, minutes: nat)
    requires hours * HOUR + minutes * MINUTE <= MAX_INT64
    ensures ParseSegments(Digits(hours) + "h" + Digits(minutes) + "m") == Some(hours * HOUR + minutes * MINUTE)
  {
    var head, tail := Digits(hours) + "h", Digits(minutes) + "m";
    TwoSegments(hours, minutes, tail);
    JoinedText(head, Digits(minutes), tail);
  }

  lemma TwoSegments(hours: nat, minutes: nat, tail: string)
    requires hours * HOUR + minutes * MINUTE <= MAX_INT64 && tail == Digits(minutes) + ['m']
    ensures ParseSegments(Digits(hours) + ['h'] + tail) == Some(hours * HOUR + minutes * MINUTE)
  {
    var a, b := hours * HOUR, minutes * MINUTE;
    ReadsBackAlone(minutes, 'm', MINUTE, a, b);
    SegmentRead(hours, 'h', HOUR, tail);
    OneSegment(NextSegment, Digits(hours) + ['h'] + tail, a, tail, 0);
  }

  lemma JoinedText(head: string, count: string, tail: string)
    requires tail == count + "m"
    ensures head + count + "m" == head + tail
  {
  }

  lemma OneSegment(next: string -> Option<(nat, string)>, s: string, amount: nat, rest: string, sum: nat)
    requires s != "" && |rest| < |s| && next(s) == Some((amount, rest)) && sum + amount <= TWO_63
    ensures AddUp(next, s, sum) == AddUp(next, rest, sum + amount)
  {
  }

  lemma {:induction false} AddUpInRange(next: string -> Option<(nat, string)>, s: string, sum: nat)
    requires sum <= TWO_63 && AddUp(next, s, sum).Some?
    ensures AddUp(next, s, sum).value <= TWO_63
    decreases |s|
  {
    if s != "" {
      AddUpInRange(next, next(s).value.1, sum + next(s).value.0);
    }
  }

  lemma ParseDurationInRange(s: string)
    requires ParseDuration(s).Some?
    ensures -TWO_63 <= ParseDuration(s).value <= MAX_INT64
  {
    var rest := if s != "" && (s[0] == '-' || s[0] == '+') then s[1..] else s;
    if ParseSegments(rest).Some? {
      AddUpInRange(NextSegment, rest, 0);
    }
  }

  lemma Unsigned(s: string)
    requires |s| >= 2 && IsDigit(s[0])
    ensures ParseDuration(s) == match ParseSegments(s)
                                case None => None
                                case Some(d) => if d > MAX_INT64 then None else Some(d)
  {
  }

  /** The text of so many minutes. */
  lemma MinutesTextReadsBack(total: nat)
    requires total * MINUTE <= MAX_INT64
    ensures ParseSegments(MinutesText(total)) == Some(total * MINUTE)
  {
    var hours := total / 60;
    var minutes := total - hours * 60;
    assert total * MINUTE == hours * HOUR + minutes * MINUTE;
    if hours > 0 && minutes > 0 {
      ReadsBackTogether(hours, minutes);
    } else if hours > 0 {
      HoursReadBack(hours);
    } else {
      MinutesReadBack(minutes);
    }
  }

  /** Whatever was formatted reads back as whole minutes. */
  lemma FormatTTLReadsBack(value: int)
    requires -TWO_63 <= value <= MAX_INT64
    ensures ParseDuration(FormatTTL(value)) == Some(TTLMinutes(value) * MINUTE)
  {
    MinutesFit(TTLMinutes(value));
    MinutesTextReadsBack(TTLMinutes(value));
    Unsigned(FormatTTL(value));
  }

  // ----- what the texts mean -----

  /** The units of a duration text, each in nanoseconds. */
  predicate Measures(unit: string, size: nat) {
    || (unit == "ns" && size == 1)
    || (unit in {"us", "\U{00B5}s", "\U{03BC}s"} && size == 1_000)
    || (unit == "ms" && size == 1_000_000)
    || (unit == "s" && size == 1_000_000_000)
    || (unit == "m" && size == 60_000_000_000)
    || (unit == "h" && size == 3_600_000_000_000)
  }

  lemma {:induction false} UnitRunOf(unit: string)
    requires forall i :: 0 <= i < |unit| ==> !IsDigit(unit[i]) && unit[i] != '.'
    ensures UnitRun(unit) == |unit|
  {
    if unit != "" {
      UnitRunOf(unit[1..]);
    }
  }

  lemma CountAndUnit(n: nat, unit: string)
    requires unit != "" && forall i :: 0 <= i < |unit| ==> !IsDigit(unit[i]) && unit[i] != '.'
    ensures var digits := Digits(n);
            var s := digits + unit;
            && DigitRun(s) == |digits| && UnitRun(s[|digits|..]) == |unit|
            && s[..|digits|] == digits && s[|digits|..|digits| + |unit|] == unit && s[|digits| + |unit|..] == ""
  {
    DigitRunOf(Digits(n), unit);
    UnitRunOf(unit);
    assert (Digits(n) + unit)[|Digits(n)|..] == unit;
  }

  lemma UnitsAre(unit: string, size: nat)
    requires Measures(unit, size)
    ensures unit != "" && UnitOf(unit) == Some(size) && size >= 1
    ensures forall i :: 0 <= i < |unit| ==> !IsDigit(unit[i]) && unit[i] != '.'
  {
  }

  lemma SegmentOf(n: nat, unit: string, size: nat)
    requires unit != "" && forall i :: 0 <= i < |unit| ==> !IsDigit(unit[i]) && unit[i] != '.'
    requires size >= 1 && UnitOf(unit) == Some(size)
    ensures NextSegment(Digits(n) + unit) == if Amount(n, size) > TWO_63 then None else Some((Amount(n, size), ""))
  {
    CountAndUnit(n, unit);
    ValueOfDigits(n);
  }

  lemma OnlySegment(s: string, amount: nat)
    requires s != "" && NextSegment(s) == if amount > TWO_63 then None else Some((amount, ""))
    ensures ParseSegments(s) == if amount <= TWO_63 then Some(amount) else None
  {
    if amount <= TWO_63 {
      OneSegment(NextSegment, s, amount, "", 0);
    }
  }

  lemma SignedCount(s: string, amount: nat)
    requires |s| >= 2 && IsDigit(s[0])
    requires ParseSegments(s) == if amount <= TWO_63 then Some(amount) else None
    ensures ParseDuration(s) == if amount < TWO_63 then Some(amount) else None
    ensures ParseDuration("-" + s) == if amount <= TWO_63 then Some(0 - amount) else None
    ensures ParseDuration("+" + s) == ParseDuration(s)
  {
    Unsigned(s);
    assert ("-" + s)[1..] == s && ("+" + s)[1..] == s;
  }

  /**
   A count of a unit is that many times the unit, with its sign, if 64 bits hold it; more than they hold is an error.
   */
  lemma ACountIsRead(n: nat, unit: string, size: nat, amount: nat)
    requires Measures(unit, size) && amount == n * size
    ensures ParseDuration(Digits(n) + unit) == if amount < 0x8000_0000_0000_0000 then Some(amount) else None
    ensures ParseDuration("-" + (Digits(n) + unit))
         == if amount <= 0x8000_0000_0000_0000 then Some(0 - amount) else None
    ensures ParseDuration("+" + (Digits(n) + unit)) == ParseDuration(Digits(n) + unit)
  {
    UnitsAre(unit, size);
    SegmentOf(n, unit, size);
    OnlySegment(Digits(n) + unit, amount);
    SignedCount(Digits(n) + unit, amount);
  }

  /** Zero needs no unit; nothing else goes without one, and nothing is no duration. */
  lemma OnlyZeroGoesWithoutAUnit(digits: string)
    requires AllDigits(digits)
    ensures ParseDuration(digits) == if digits == "0" then Some(0) else None
  {
    DigitRunOf(digits, "");
    assert digits + "" == digits;
  }

  lemma MinutesTextIs(hours: nat, minutes: nat)
    requires minutes < 60
    ensures MinutesText(60 * hours + minutes)
         == if hours > 0 && minutes > 0 then Digits(hours) + "h" + Digits(minutes) + "m"
            else if hours > 0 then Digits(hours) + "h" else Digits(minutes) + "m"
  {
    assert (60 * hours + minutes) / 60 == hours;
  }

  lemma WholeMinutes(total: nat)
    requires 1 <= total && total * 60_000_000_000 < 0x8000_0000_0000_0000
    ensures TTLMinutes(total * 60_000_000_000) == total
  {
    assert total * 60_000_000_000 == total * MINUTE;
  }

  /** A TTL of hours and minutes is written in both, or in the one that is not zero. */
  lemma HoursAndMinutesAreWritten(hours: nat, minutes: nat)
    requires minutes < 60 && 0 < hours + minutes && (60 * hours + minutes) * 60_000_000_000 < 0x8000_0000_0000_0000
    ensures FormatTTL((60 * hours + minutes) * 60_000_000_000)
         == if minutes == 0 then Digits(hours) + "h" else if hours == 0 then Digits(minutes) + "m"
            else Digits(hours) + "h" + Digits(minutes) + "m"
  {
    WholeMinutes(60 * hours + minutes);
    MinutesTextIs(hours, minutes);
  }

  /** The CRD accepts what was formatted. */
  lemma FormatTTLMatchesThePattern(value: int)
    requires -TWO_63 <= value <= MAX_INT64
    ensures MatchesTTLPattern(FormatTTL(value)) && FormatTTL(value) != ""
  {
    var total := TTLMinutes(value);
    var hours := total / 60;
    var minutes := total - hours * 60;
    var h, m := Digits(hours) + "h", Digits(minutes) + "m";
    assert IsCount(h, 'h') && IsCount(m, 'm') && IsCount("", 'h') && IsCount("", 'm');
    if hours > 0 && minutes > 0 {
      assert FormatTTL(value) == h + m;
    } else if hours > 0 {
      assert FormatTTL(value) == h + "";
    } else {
      assert FormatTTL(value) == "" + m;
    }
  }

  /**
   Below half a minute a TTL is kept as one minute, and else as the nearest whole minutes, halves rounded up. Formatting
   again changes nothing.
   */
  lemma FormatTTLIsNearest(value: int)
    requires 0 <= value <= MAX_INT64
    ensures 2 * value < MINUTE ==> TTLMinutes(value) == 1
    ensures 2 * value >= 60_000_000_000 ==>
      -60_000_000_000 < 2 * (value - TTLMinutes(value) * 60_000_000_000) < 60_000_000_000
      || 2 * (TTLMinutes(value) * 60_000_000_000 - value) == 60_000_000_000
    ensures FormatTTL(TTLMinutes(value) * MINUTE) == FormatTTL(value)
  {
    MinutesFit(TTLMinutes(value));
    assert RoundedMinutes(TTLMinutes(value) * MINUTE) == TTLMinutes(value);
  }
}
