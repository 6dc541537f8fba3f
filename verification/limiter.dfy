/** The adaptive token bucket shared by the two Binance scripts.

    The bucket holds a real number of tokens, refills continuously at
    `rps` tokens per second up to `rps`, halves its rate on every denial
    (never below the configured minimum) and creeps back by one on a lucky
    success (never above the starting rate). A denial also arms a cooldown
    whose length grows by a factor 1.5 per attempt and is capped at 8 s.

    The clock (`Date.now()`) and the 3% recovery coin (`Math.random()`) are
    parameters; the sleeps themselves are not modelled. */
module Limiter {
  import opened Arith

  /** START_RPS and MIN_RPS, read with `Number(...)`, so either may be fractional. */
  datatype Config = Config(startRps: real, minRps: real)

  datatype State = State(tokens: real, rps: real, lastRefill: int, cooldownUntil: int)

  /** The module-level initial values: a full bucket at the starting rate. */
  function Init(c: Config, now: int): (s: State)
    ensures c.startRps >= 0.0 && c.minRps >= 0.0 ==> Valid(c, s)
    ensures s.tokens == s.rps == c.startRps && s.cooldownUntil == 0
  {
    State(c.startRps, c.startRps, now, 0)
  }

  /** What every reachable state satisfies: no debt of tokens, a rate no
      lower than the lower of the two configured rates, and less than one
      above the higher. A recovery step may overshoot a fractional start by
      less than one, so the rate need not stay at or below it. */
  predicate Valid(c: Config, s: State) {
    && c.startRps >= 0.0 && c.minRps >= 0.0
    && s.tokens >= 0.0
    && MinR(c.startRps, c.minRps) <= s.rps < MaxR(c.startRps, c.minRps) + 1.0
  }

  /** `(now - lastRefill) / 1000 * currentRps`, the tokens a refill would add. */
  function Accrued(s: State, now: int): real {
    (now - s.lastRefill) as real / 1000.0 * s.rps
  }

  /** `refillTokens`: credit the accrued tokens, capped at the current rate,
      and move `lastRefill` only when something was credited. */
  function Refill(s: State, now: int): (r: State)
    ensures r.rps == s.rps && r.cooldownUntil == s.cooldownUntil
    ensures Accrued(s, now) > 0.0 ==> r.lastRefill == now && r.tokens <= r.rps
    ensures Accrued(s, now) > 0.0 ==> r.tokens == r.rps || r.tokens > s.tokens
    ensures Accrued(s, now) <= 0.0 ==> r == s
    ensures s.tokens >= 0.0 && s.rps >= 0.0 ==> r.tokens >= 0.0
  {
    var add := Accrued(s, now);
    if add > 0.0 then s.(tokens := MinR(s.rps, s.tokens + add), lastRefill := now)
    else s
  }

  /** The outcome of `rateLimit`'s polling loop over a run of clock readings:
      `at` is the reading at which a token was taken. */
  datatype Admission = Admission(state: State, admitted: bool, polls: nat, at: int)

  /** The `for (;;)` of `rateLimit`: refill at each reading and take a token
      as soon as at least one is available. Readings left over are unused. */
  function Poll(s: State, clocks: seq<int>): (r: Admission)
    ensures r.state.rps == s.rps && r.state.cooldownUntil == s.cooldownUntil
    ensures r.admitted ==> 1 <= r.polls <= |clocks| && r.at == clocks[r.polls - 1]
    ensures !r.admitted ==> r.polls == |clocks|
    ensures !r.admitted && |clocks| > 0 ==> r.state.tokens < 1.0
    ensures |clocks| == 0 ==> r.state == s
    ensures s.tokens >= 0.0 && s.rps >= 0.0 ==> r.state.tokens >= 0.0
    decreases |clocks|
  {
    if |clocks| == 0 then Admission(s, false, 0, 0)
    else
      var t := Refill(s, clocks[0]);
      if t.tokens >= 1.0 then Admission(t.(tokens := t.tokens - 1.0), true, 1, clocks[0])
      else
        var rest := Poll(t, clocks[1..]);
        rest.(polls := rest.polls + 1)
  }

  /** `rateLimit`: first wait out an active cooldown, then poll. The result
      pairs the cooldown wait in milliseconds with the admission. When the
      readings are taken after the wait, no token is taken before the
      cooldown ends. */
  function RateLimit(s: State, now: int, clocks: seq<int>): (r: (int, Admission))
    ensures r.0 >= 0 && now + r.0 >= s.cooldownUntil
    ensures r.0 > 0 ==> now + r.0 == s.cooldownUntil
    ensures r.1.state.rps == s.rps && r.1.state.cooldownUntil == s.cooldownUntil
    ensures (forall i | 0 <= i < |clocks| :: clocks[i] >= now + r.0)
            ==> (r.1.admitted ==> r.1.at >= s.cooldownUntil)
  {
    (if now < s.cooldownUntil then s.cooldownUntil - now else 0, Poll(s, clocks))
  }

  /** A reading a full second after the last refill always admits when the
      rate is at least one token per second. */
  lemma SecondLaterAdmits(s: State, clocks: seq<int>)
    requires s.tokens >= 0.0 && s.rps >= 1.0
    requires |clocks| >= 1 && clocks[0] >= s.lastRefill + 1000
    ensures Poll(s, clocks).admitted && Poll(s, clocks).polls == 1
  {
    var e := clocks[0] - s.lastRefill;
    assert e as real / 1000.0 >= 1.0;
    assert Accrued(s, clocks[0]) >= s.rps;
  }

  /** The base of the denial cooldown: 2000 ms for 403, 1500 ms otherwise. */
  function CooldownBase(status: int): int {
    if status == 403 then 2000 else 1500
  }

  /** `Math.min(8000, Math.floor(base * Math.pow(1.5, attempt)))` in integers. */
  function CooldownMs(status: int, attempt: nat): (ms: int)
    ensures Min(8000, CooldownBase(status)) <= ms <= 8000
  {
    PowMonotone(2, 0, attempt);
    PowBase(attempt);
    DivLowerBound(CooldownBase(status), CooldownBase(status) * Pow(3, attempt), Pow(2, attempt));
    Min(8000, CooldownBase(status) * Pow(3, attempt) / Pow(2, attempt))
  }

  /** `Math.floor(currentRps / 2)`. */
  function Halved(x: real): (h: real)
    ensures Whole(h)
    ensures 2.0 * h <= x < 2.0 * h + 2.0
  {
    (x / 2.0).Floor as real
  }

  /** `onDeny`: halve the rate (rounding down, not below the minimum) and arm
      the cooldown from `now`. */
  function OnDeny(c: Config, s: State, status: int, attempt: nat, now: int): (r: State)
    ensures r.rps == MaxR(c.minRps, Halved(s.rps))
    ensures r.cooldownUntil == now + CooldownMs(status, attempt)
    ensures r.rps >= c.minRps
    ensures r.rps == c.minRps || 2.0 * r.rps <= s.rps
    ensures s.rps >= 0.0 ==> r.rps <= MaxR(s.rps, c.minRps)
    ensures now < r.cooldownUntil <= now + 8000
    ensures r.tokens == s.tokens && r.lastRefill == s.lastRefill
  {
    s.(rps := MaxR(c.minRps, Halved(s.rps)), cooldownUntil := now + CooldownMs(status, attempt))
  }

  /** `onSuccessTick`: recover one unit of rate when below the start and the coin lands. */
  function OnSuccessTick(c: Config, s: State, coin: bool): (r: State)
    ensures r.rps == s.rps + 1.0 <==> s.rps < c.startRps && coin
    ensures r.rps == s.rps || r.rps == s.rps + 1.0
    ensures r.rps != s.rps ==> r.rps < c.startRps + 1.0
    ensures Whole(s.rps) && Whole(c.startRps) && s.rps <= c.startRps ==> r.rps <= c.startRps
    ensures r.tokens == s.tokens && r.lastRefill == s.lastRefill && r.cooldownUntil == s.cooldownUntil
  {
    WholeStep(s.rps, c.startRps);
    if s.rps < c.startRps && coin then s.(rps := s.rps + 1.0) else s
  }

  /** The integer cooldown is the floor of the real-valued expression. */
  lemma CooldownIsFloor(status: int, attempt: nat)
    ensures CooldownMs(status, attempt)
         == Min(8000, (CooldownBase(status) as real * Growth(3, 2, attempt)).Floor)
  {
    var b := CooldownBase(status);
    var m := b * Pow(3, attempt);
    var n := Pow(2, attempt);
    PowMonotone(2, 0, attempt);
    assert b as real * (Pow(3, attempt) as real / n as real) == m as real / n as real;
    FloorOfQuotient(m, n);
  }

  /** Later attempts never cool down for less time. */
  lemma {:induction false} CooldownMonotone(status: int, a: nat, b: nat)
    requires a <= b
    ensures CooldownMs(status, a) <= CooldownMs(status, b)
    decreases b - a
  {
    if a < b {
      CooldownMonotone(status, a + 1, b);
      CooldownStep(status, a);
    }
  }

  lemma CooldownStep(status: int, a: nat)
    ensures CooldownMs(status, a) <= CooldownMs(status, a + 1)
  {
    var base := CooldownBase(status);
    var big := base * Pow(3, a);
    var p2 := Pow(2, a);
    PowMonotone(2, 0, a);
    var q := big / p2;
    DivTimesLe(big, p2);
    assert big >= 0;
    assert q * (2 * p2) <= 3 * big;
    DivLowerBound(q, 3 * big, 2 * p2);
    assert base * Pow(3, a + 1) == 3 * big;
  }

  /** One thing that can happen to the limiter. */
  datatype Step =
    | Take(clocks: seq<int>)
    | Deny(status: int, attempt: nat, now: int)
    | Tick(coin: bool)

  function Apply(c: Config, s: State, step: Step): State {
    match step
    case Take(clocks) => Poll(s, clocks).state
    case Deny(status, attempt, now) => OnDeny(c, s, status, attempt, now)
    case Tick(coin) => OnSuccessTick(c, s, coin)
  }

  function ApplyAll(c: Config, s: State, steps: seq<Step>): State
    decreases |steps|
  {
    if |steps| == 0 then s else ApplyAll(c, Apply(c, s, steps[0]), steps[1..])
  }

  lemma ApplyValid(c: Config, s: State, step: Step)
    requires Valid(c, s)
    ensures Valid(c, Apply(c, s, step))
  {
  }

  /** Whatever order refills, denials and successes come in, the state stays valid. */
  lemma {:induction false} ApplyAllValid(c: Config, s: State, steps: seq<Step>)
    requires Valid(c, s)
    ensures Valid(c, ApplyAll(c, s, steps))
    decreases |steps|
  {
    if |steps| > 0 {
      ApplyValid(c, s, steps[0]);
      ApplyAllValid(c, Apply(c, s, steps[0]), steps[1..]);
    }
  }

  /** With whole configured rates the rate itself stays whole and never
      rises above the higher of the two. */
  predicate Capped(c: Config, s: State) {
    Whole(s.rps) && s.rps <= MaxR(c.startRps, c.minRps)
  }

  lemma ApplyCapped(c: Config, s: State, step: Step)
    requires Whole(c.startRps) && Whole(c.minRps) && Valid(c, s) && Capped(c, s)
    ensures Capped(c, Apply(c, s, step))
  {
    match step
    case Take(clocks) =>
    case Deny(status, attempt, now) =>
      var r := OnDeny(c, s, status, attempt, now);
      assert r.rps == c.minRps || r.rps == Halved(s.rps);
    case Tick(coin) =>
      WholeShift(s.rps, 1);
  }

  lemma {:induction false} ApplyAllCapped(c: Config, s: State, steps: seq<Step>)
    requires Whole(c.startRps) && Whole(c.minRps) && Valid(c, s) && Capped(c, s)
    ensures Capped(c, ApplyAll(c, s, steps))
    decreases |steps|
  {
    if |steps| > 0 {
      ApplyCapped(c, s, steps[0]);
      ApplyValid(c, s, steps[0]);
      ApplyAllCapped(c, Apply(c, s, steps[0]), steps[1..]);
    }
  }

  /** START_RPS = 8.5: a denial drops the rate to 4, recovery climbs 5, 6, 7,
      8 and then, as 8 is still below 8.5, to 9. */
  lemma FractionalStartOvershoots()
    ensures var c := Config(8.5, 2.0);
            var s := ApplyAll(c, Init(c, 0), [Deny(429, 0, 0), Tick(true), Tick(true), Tick(true), Tick(true), Tick(true)]);
            Valid(c, s) && s.rps == 9.0 && s.rps > c.startRps
  {
    var c := Config(8.5, 2.0);
    var s0 := Init(c, 0);
    var s1 := Apply(c, s0, Deny(429, 0, 0));
    assert Halved(8.5) == 4.0;
    assert s1.rps == 4.0;
    ApplyAllValid(c, s0, [Deny(429, 0, 0), Tick(true), Tick(true), Tick(true), Tick(true), Tick(true)]);
  }
}
