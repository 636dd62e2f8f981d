/** Small derived figures: the daily farming ratio (`get_daily_slp`) and
    the class filter over axie records (`get_all_axie_class`). */
module Stats {
  import opened Optional
  import opened Text
  import opened Cooldown

  /** Python `int(a / b)` for a positive divisor: the quotient truncated
      toward zero. */
  function TruncDiv(a: int, b: int): (q: int)
    requires b > 0
    ensures a >= 0 ==> 0 <= q && q * b <= a < (q + 1) * b
    ensures a < 0 ==> q <= 0 && (q - 1) * b < a <= q * b
  {
    if a >= 0 then
      DivBounds(a, b);
      a / b
    else
      DivBounds(-a, b);
      -((-a) / b)
  }

  lemma DivBounds(n: int, b: int)
    requires n >= 0 && b > 0
    ensures 0 <= n / b && (n / b) * b <= n < (n / b) * b + b
  {
    assert n == (n / b) * b + n % b;
  }

  /** `(fromtimestamp(last) - utcnow()).days * -1`: `timedelta.days` floors,
      so negating it rounds the elapsed time UP to whole days. */
  function ElapsedDays(now: int, lastClaim: int): (d: int)
    ensures SecondsPerDay * (d - 1) < now - lastClaim <= SecondsPerDay * d
  {
    -((lastClaim - now) / SecondsPerDay)
  }

  /** `get_daily_slp`: the unclaimed amount per elapsed day, or the whole
      unclaimed amount when no time has passed since the last claim. */
  function DailySlp(unclaimed: int, lastClaim: int, now: int): (r: int)
    ensures now <= lastClaim ==> r == unclaimed
    ensures now > lastClaim ==> var d := ElapsedDays(now, lastClaim);
      d >= 1 && (unclaimed >= 0 ==> 0 <= r && r * d <= unclaimed < (r + 1) * d)
             && (unclaimed < 0 ==> r <= 0 && (r - 1) * d < unclaimed <= r * d)
  {
    var days := ElapsedDays(now, lastClaim);
    if days <= 0 then unclaimed else TruncDiv(unclaimed, days)
  }

  /** An axie record as the web API lists it; only `class` is inspected. */
  datatype Axie = Axie(id: int, cls: Option<string>)

  /** `axie['class'] is not None and axie['class'].lower() == axie_class.lower()`. */
  predicate OfClass(a: Axie, axieClass: string) {
    a.cls.Some? && Lower(a.cls.value) == Lower(axieClass)
  }

  /** The records of one class, in the order listed. */
  function Filter(axies: seq<Axie>, axieClass: string): (r: seq<Axie>)
    ensures |r| <= |axies|
    ensures forall k :: 0 <= k < |r| ==> OfClass(r[k], axieClass)
    decreases |axies|
  {
    if |axies| == 0 then []
    else (if OfClass(axies[0], axieClass) then [axies[0]] else []) + Filter(axies[1..], axieClass)
  }

  /** Filtering keeps the listed order: the records kept from a front part
      of the list come before those kept from the rest. */
  lemma {:induction false} FilterAppend(front: seq<Axie>, back: seq<Axie>, axieClass: string)
    ensures Filter(front + back, axieClass) == Filter(front, axieClass) + Filter(back, axieClass)
    decreases |front|
  {
    if |front| > 0 {
      assert (front + back)[0] == front[0];
      assert (front + back)[1..] == front[1..] + back;
      FilterAppend(front[1..], back, axieClass);
    } else {
      assert front + back == back;
    }
  }

  /** Nothing of the class is dropped and nothing is duplicated: each record
      occurs in the result exactly as often as in the input when it is of
      the class, and not at all otherwise. */
  lemma {:induction false} FilterCounts(axies: seq<Axie>, axieClass: string, x: Axie)
    ensures multiset(Filter(axies, axieClass))[x] == if OfClass(x, axieClass) then multiset(axies)[x] else 0
    decreases |axies|
  {
    if |axies| > 0 {
      FilterCounts(axies[1..], axieClass, x);
      assert axies == [axies[0]] + axies[1..];
      assert multiset(axies) == multiset([axies[0]]) + multiset(axies[1..]);
    }
  }

  /** `get_all_axie_class(axie_class, axies_datas)`: an empty list means the
      records are fetched from every account (`fetched`) instead. */
  function AxiesOfClass(axieClass: string, given: seq<Axie>, fetched: seq<Axie>): (r: seq<Axie>)
    ensures |given| > 0 ==> forall x :: multiset(r)[x] == if OfClass(x, axieClass) then multiset(given)[x] else 0
    ensures |given| == 0 ==> forall x :: multiset(r)[x] == if OfClass(x, axieClass) then multiset(fetched)[x] else 0
  {
    var source := if |given| == 0 then fetched else given;
    forall x ensures multiset(Filter(source, axieClass))[x] == if OfClass(x, axieClass) then multiset(source)[x] else 0 {
      FilterCounts(source, axieClass, x);
    }
    Filter(source, axieClass)
  }

  /** The class comparison ignores ASCII letter case on both sides. */
  lemma ClassIgnoresCase(a: Axie, axieClass: string)
    requires a.cls.Some?
    ensures OfClass(a, axieClass) <==> OfClass(Axie(a.id, Some(Lower(a.cls.value))), Lower(axieClass))
  {
    LowerIdempotent(a.cls.value);
    LowerIdempotent(axieClass);
  }

  lemma LowerIdempotent(s: string)
    ensures Lower(Lower(s)) == Lower(s)
  {
  }
}
