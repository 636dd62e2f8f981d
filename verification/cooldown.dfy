/** The 14-day claim cooldown, on a single clock of whole epoch seconds. */
module Cooldown {
  import opened Optional

  const SecondsPerMinute: nat := 60
  const SecondsPerHour: nat := 3600
  const SecondsPerDay: nat := 86400

  /** `timedelta(days=14)` in seconds. */
  const CooldownSeconds: nat := 14 * SecondsPerDay

  /** `utcnow() + timedelta(days=-14) < fromtimestamp(last_claim)`: the test
      every caller uses to refuse a claim. */
  predicate TooSoon(now: int, lastClaim: int) {
    now - CooldownSeconds < lastClaim
  }

  /** A claim is allowed once at least fourteen whole days have elapsed;
      exactly fourteen days is enough. */
  lemma EligibleIffElapsed(now: int, lastClaim: int)
    ensures !TooSoon(now, lastClaim) <==> now - lastClaim >= CooldownSeconds
    ensures !TooSoon(lastClaim + CooldownSeconds, lastClaim)
    ensures TooSoon(lastClaim + CooldownSeconds - 1, lastClaim)
  {
  }

  /** The remaining wait shown to the user, split the way `timedelta` does:
      whole days plus hours, minutes and seconds of the leftover part. */
  datatype Wait = Wait(days: nat, hours: nat, minutes: nat, seconds: nat)

  function TotalSeconds(w: Wait): nat {
    w.days * SecondsPerDay + w.hours * SecondsPerHour + w.minutes * SecondsPerMinute + w.seconds
  }

  /** The wait in `create_info_message`: `last_claim - (now - 14 days)`,
      reported only while the claim is too soon, decomposed into days and a
      time of day. */
  function RemainingWait(now: int, lastClaim: int): (r: Option<Wait>)
    ensures r.Some? <==> TooSoon(now, lastClaim)
    ensures r.Some? ==> TotalSeconds(r.value) == lastClaim - (now - CooldownSeconds)
    ensures r.Some? ==> r.value.hours < 24 && r.value.minutes < 60 && r.value.seconds < 60
  {
    if TooSoon(now, lastClaim) then
      var wait := lastClaim - (now - CooldownSeconds);
      var rest := wait % SecondsPerDay;
      Some(Wait(wait / SecondsPerDay, rest / SecondsPerHour, rest % SecondsPerHour / SecondsPerMinute, rest % SecondsPerMinute))
    else None
  }
}
