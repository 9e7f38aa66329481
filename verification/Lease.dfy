/**
 How long a preview may live (internal/environments/lease.go): renewals added up in 64 bits, and the ceiling.
 Times and durations count nanoseconds. How a duration text is read is a parameter; TTL.ParseDuration is the
 reading modelled here.
 */
module Lease {
  import opened Text
  import opened TTL

  const DEFAULT_TTL: int := 48 * HOUR
  const MAX_TTL: int := 7 * 24 * HOUR

  type DurationParser = string -> Option<int>

  /** What the model needs of time.ParseDuration: int64 results, and formatted TTLs read back. */
  ghost predicate ReadsDurations(parse: DurationParser) {
    && (forall s :: parse(s).Some? ==> -TWO_63 <= parse(s).value <= MAX_INT64)
    && (forall d :: -TWO_63 <= d <= MAX_INT64 ==>
        parse(FormatTTL(d)) == Some(TTLMinutes(d) * MINUTE) && FormatTTL(d) != "")
  }

  lemma ParseDurationReads()
    ensures ReadsDurations(ParseDuration)
  {
    forall s | ParseDuration(s).Some?
      ensures -TWO_63 <= ParseDuration(s).value <= MAX_INT64
    {
      ParseDurationInRange(s);
    }
    forall d | -TWO_63 <= d <= MAX_INT64
      ensures ParseDuration(FormatTTL(d)) == Some(TTLMinutes(d) * MINUTE) && FormatTTL(d) != ""
    {
      FormatTTLReadsBack(d);
      FormatTTLMatchesThePattern(d);
    }
  }

  /** int64 addition. */
  function Wrap64(x: int): (w: int)
    ensures -TWO_63 <= w <= MAX_INT64
    ensures -TWO_63 <= x <= MAX_INT64 ==> w == x
  {
    (x + TWO_63) % (2 * TWO_63) - TWO_63
  }

  /** parseTTL; None stands for its two errors. */
  function ParseTTL(parse: DurationParser, value: string, fallback: int): Option<int> {
    if value == "" then Some(fallback)
    else
      match parse(value)
      case None => None
      case Some(parsed) => if parsed <= 0 then None else Some(parsed)
  }

  /** A TTL that was formatted reads back as the nearest whole minutes, and at least one. */
  lemma TTLRoundTrip(parse: DurationParser, value: int, fallback: int)
    requires ReadsDurations(parse) && -TWO_63 <= value <= MAX_INT64
    ensures ParseTTL(parse, FormatTTL(value), fallback) == Some(TTLMinutes(value) * MINUTE)
  {
    assert TTLMinutes(value) * MINUTE > 0;
  }

  // ----- LeaseOf -----

  datatype Renewal = Renewal(extend: string, reason: string, grantedBy: string, grantedAt: int)

  datatype LeaseData = LeaseData(startedAt: int, expiresAt: int, granted: int, clamped: bool) {
    predicate Expired(now: int) {
      now >= expiresAt
    }

    function Remaining(now: int): int {
      if Expired(now) then 0 else expiresAt - now
    }
  }

  /** The TTL and the extensions added up the way int64 adds. None when one of them is unreadable. */
  function GrantedSum(parse: DurationParser, ttl: string, renewals: seq<Renewal>): Option<int>
  {
    if renewals == [] then ParseTTL(parse, ttl, DEFAULT_TTL)
    else
      match GrantedSum(parse, ttl, renewals[..|renewals| - 1])
      case None => None
      case Some(sum) =>
        match ParseTTL(parse, renewals[|renewals| - 1].extend, 0)
        case None => None
        case Some(extension) => Some(Wrap64(sum + extension))
  }

  function Clamp(granted: int): int {
    if granted > MAX_TTL then MAX_TTL else granted
  }

  method LeaseOf(parse: DurationParser, ttl: string, renewals: seq<Renewal>, createdAt: int,
      leaseStartedAt: Option<int>) returns (lease: Option<LeaseData>)
    ensures lease == LeaseFor(parse, ttl, renewals, createdAt, leaseStartedAt)
  {
    var requested := ParseTTL(parse, ttl, DEFAULT_TTL);
    if requested.None? {
      GrantedSumFails(parse, ttl, renewals, 0);
      return None;
    }
    var granted := requested.value;
    for i := 0 to |renewals|
      invariant GrantedSum(parse, ttl, renewals[..i]) == Some(granted)
    {
      assert renewals[..i + 1][..i] == renewals[..i];
      var extension := ParseTTL(parse, renewals[i].extend, 0);
      if extension.None? {
        GrantedSumFails(parse, ttl, renewals, i + 1);
        return None;
      }
      granted := Wrap64(granted + extension.value);
    }
    assert renewals[..|renewals|] == renewals;
    var clamped := false;
    if granted > MAX_TTL {
      granted, clamped := MAX_TTL, true;
    }
    var started := createdAt;
    if leaseStartedAt.Some? {
      started := leaseStartedAt.value;
    }
    lease := Some(LeaseData(started, started + granted, granted, clamped));
  }

  function LeaseFor(parse: DurationParser, ttl: string, renewals: seq<Renewal>, createdAt: int,
      leaseStartedAt: Option<int>): Option<LeaseData> {
    match GrantedSum(parse, ttl, renewals)
    case None => None
    case Some(sum) =>
      var started := if leaseStartedAt.Some? then leaseStartedAt.value else createdAt;
      Some(LeaseData(started, started + Clamp(sum), Clamp(sum), sum > MAX_TTL))
  }

  lemma {:induction false} GrantedSumFails(parse: DurationParser, ttl: string, renewals: seq<Renewal>, i: nat)
    requires i <= |renewals| && GrantedSum(parse, ttl, renewals[..i]).None?
    ensures GrantedSum(parse, ttl, renewals).None?
  {
    if i < |renewals| {
      var last := |renewals| - 1;
      assert renewals[..last][..i] == renewals[..i];
      GrantedSumFails(parse, ttl, renewals[..last], i);
    } else {
      assert renewals[..i] == renewals;
    }
  }

  /** No lease outlives the ceiling, whatever was asked for and however often it was renewed. */
  lemma CeilingHolds(parse: DurationParser, ttl: string, renewals: seq<Renewal>, createdAt: int,
      leaseStartedAt: Option<int>)
    requires LeaseFor(parse, ttl, renewals, createdAt, leaseStartedAt).Some?
    requires leaseStartedAt.Some? ==> leaseStartedAt.value == createdAt
    ensures var lease := LeaseFor(parse, ttl, renewals, createdAt, leaseStartedAt).value;
            && lease.expiresAt <= createdAt + MAX_TTL
            && (lease.clamped ==> lease.expiresAt == createdAt + MAX_TTL)
  {
  }

  lemma {:induction false} GrantedSumInRange(parse: DurationParser, ttl: string, renewals: seq<Renewal>)
    requires ReadsDurations(parse) && GrantedSum(parse, ttl, renewals).Some?
    ensures -TWO_63 <= GrantedSum(parse, ttl, renewals).value <= MAX_INT64
  {
    if renewals == [] {
      assert parse(ttl).Some? ==> parse(ttl).value <= MAX_INT64;
    }
  }

  /**
   One more renewal never shortens the grant, unless the sum leaves 64 bits: then it always does. (Nine
   durations of up to 292 years each can add up to more than an int64 holds.)
   */
  lemma RenewalNeverShortensUnlessItOverflows(parse: DurationParser, ttl: string, renewals: seq<Renewal>,
      renewal: Renewal)
    requires ReadsDurations(parse)
    requires GrantedSum(parse, ttl, renewals).Some? && ParseTTL(parse, renewal.extend, 0).Some?
    ensures var sum := GrantedSum(parse, ttl, renewals).value;
            var extension := ParseTTL(parse, renewal.extend, 0).value;
            var renewed := GrantedSum(parse, ttl, renewals + [renewal]);
            && renewed.Some?
            && (Clamp(renewed.value) >= Clamp(sum) <==> sum + extension <= MAX_INT64)
  {
    GrantedSumInRange(parse, ttl, renewals);
    assert (renewals + [renewal])[..|renewals|] == renewals;
    assert renewal.extend != "" ==> ParseTTL(parse, renewal.extend, 0) == parse(renewal.extend);
    ClampOfASum(GrantedSum(parse, ttl, renewals).value, ParseTTL(parse, renewal.extend, 0).value);
  }

  lemma ClampOfASum(sum: int, extension: int)
    requires -TWO_63 <= sum <= MAX_INT64 && 0 <= extension <= MAX_INT64
    ensures Clamp(Wrap64(sum + extension)) >= Clamp(sum) <==> sum + extension <= MAX_INT64
  {
  }

  const LONGEST: int := 2_562_047 * HOUR

  /**
   Two of the longest whole-hour TTLs add up to less than nothing: the preview that is renewed so has expired at
   once.
   */
  lemma RenewingTheLongestExpiresAtOnce(parse: DurationParser, reason: string, actor: string, grantedAt: int,
      createdAt: int)
    requires ReadsDurations(parse)
    ensures var longest := FormatTTL(LONGEST);
      var before := LeaseFor(parse, longest, [], createdAt, None);
      var after := LeaseFor(parse, longest, [Renewal(longest, reason, actor, grantedAt)], createdAt, None);
      && before.Some? && before.value.expiresAt == createdAt + MAX_TTL
      && after.Some? && after.value.expiresAt < createdAt
  {
    TTLRoundTrip(parse, LONGEST, DEFAULT_TTL);
    LongestIsWhole();
    RenewedSum(parse, LONGEST, LONGEST, Renewal(FormatTTL(LONGEST), reason, actor, grantedAt));
    TwiceTheLongestWraps();
  }

  lemma LongestIsWhole()
    ensures TTLMinutes(LONGEST) * MINUTE == LONGEST
  {
  }

  lemma TwiceTheLongestWraps()
    ensures Wrap64(LONGEST + LONGEST) == LONGEST + LONGEST - 2 * TWO_63 < 0
  {
  }

  /** What a formatted TTL and one formatted extension add up to. */
  lemma RenewedSum(parse: DurationParser, ttl: int, extension: int, renewal: Renewal)
    requires ReadsDurations(parse) && 0 < ttl <= MAX_INT64 && 0 < extension <= MAX_INT64
    requires TTLMinutes(ttl) * MINUTE == ttl && TTLMinutes(extension) * MINUTE == extension
    requires renewal.extend == FormatTTL(extension)
    ensures GrantedSum(parse, FormatTTL(ttl), [renewal]) == Some(Wrap64(ttl + extension))
  {
    TTLRoundTrip(parse, ttl, DEFAULT_TTL);
    TTLRoundTrip(parse, extension, 0);
    assert [renewal][..0] == [];
  }

  ghost predicate ReadableExtensions(parse: DurationParser, renewals: seq<Renewal>) {
    forall i | 0 <= i < |renewals| :: ParseTTL(parse, renewals[i].extend, 0).Some?
  }

  /** A lease can be read if and only if its TTL and every extension can. */
  lemma {:induction false} ReadableIffEveryPartIs(parse: DurationParser, ttl: string, renewals: seq<Renewal>)
    ensures GrantedSum(parse, ttl, renewals).Some? <==>
      ParseTTL(parse, ttl, DEFAULT_TTL).Some? && ReadableExtensions(parse, renewals)
  {
    if renewals != [] {
      ReadableIffEveryPartIs(parse, ttl, renewals[..|renewals| - 1]);
      var last := |renewals| - 1;
      assert forall i | 0 <= i < last :: renewals[..last][i] == renewals[i];
    }
  }

  // ----- sweepDelay -----

  const MAX_SWEEP_DELAY: int := 10 * MINUTE

  function SweepDelay(remaining: int): (delay: int)
    ensures 0 < delay <= MAX_SWEEP_DELAY
  {
    if remaining <= 0 then SECOND else if remaining > MAX_SWEEP_DELAY then MAX_SWEEP_DELAY else remaining
  }
}
