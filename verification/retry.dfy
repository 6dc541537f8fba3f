/** The retry loops wrapped around every upstream request of the fetch scripts.

    One attempt yields either a reply (a status and, when the status is a
    success, a body that may fail to parse) or a thrown network error. A loop
    is a function from the attempts' outcomes to what the caller sees (a
    parsed body or a rethrown error), how many attempts were made, how many
    of them were treated as denials, and the trace of limiter and sleep
    events in order. Sleeps are recorded, not performed. */
module Retry {
  import opened Outcome
  import opened Arith
  import Js

  datatype Attempt =
    | Reply(status: int, body: Option<Js.Value>)
    | NetworkError

  /** `res.ok` */
  predicate Ok(status: int) {
    200 <= status <= 299
  }

  /** An attempt whose response is ok and whose body parses. */
  predicate Succeeds(a: Attempt) {
    a.Reply? && Ok(a.status) && a.body.Some?
  }

  /** How a loop reacts to a throttling status on a non-final attempt. */
  datatype DenyReaction =
    | Throttle                                         // `onDeny(status, i)` on the shared limiter
    | Backoff(base403: nat, baseOther: nat, num: nat, den: nat)  // sleep base * (num/den)^i

  /** How a loop waits after any other failure before trying again. */
  datatype ErrorReaction =
    | Exponential(base: nat, num: nat, den: nat)       // sleep base * (num/den)^i
    | Uniform(lo: nat, span: nat)                      // sleep lo + floor(random * span)

  datatype Policy = Policy(
    retries: nat,
    deny403: bool,
    onDeny: DenyReaction,
    onError: ErrorReaction,
    tick: bool)

  predicate WellFormed(p: Policy) {
    (p.onDeny.Backoff? ==> p.onDeny.den >= 1) && (p.onError.Exponential? ==> p.onError.den >= 1)
    && (p.onError.Uniform? ==> p.onError.span >= 1)
  }

  /** The statuses treated as a denial: 429, every 5xx, and 403 where the loop lists it. */
  predicate IsDenial(p: Policy, status: int) {
    status == 429 || status >= 500 || (p.deny403 && status == 403)
  }

  datatype Event =
    | Acquire                         // `rateLimit()` before the request
    | Deny(status: int, attempt: nat) // `onDeny(status, attempt)`
    | Sleep(ms: real)
    | SleepBetween(lo: nat, hi: nat)  // a random sleep in [lo, hi]
    | SuccessTick                     // `onSuccessTick()`

  datatype Result = Returned(value: Js.Value) | Threw

  datatype Run = Run(result: Result, attempts: nat, denials: nat, events: seq<Event>)

  function DenyEvents(p: Policy, status: int, i: nat): seq<Event>
    requires WellFormed(p)
  {
    match p.onDeny
    case Throttle => [Deny(status, i)]
    case Backoff(b403, b, num, den) => [Sleep((if status == 403 then b403 else b) as real * Growth(num, den, i))]
  }

  function ErrorEvents(p: Policy, i: nat): seq<Event>
    requires WellFormed(p)
  {
    match p.onError
    case Exponential(base, num, den) => [Sleep(base as real * Growth(num, den, i))]
    case Uniform(lo, span) => [SleepBetween(lo, lo + span - 1)]
  }

  /** Attempt `j` is a denial that the loop absorbs without the catch block. */
  predicate Denied(p: Policy, a: Attempt, j: nat) {
    a.Reply? && !Ok(a.status) && IsDenial(p, a.status) && j < p.retries
  }

  /** The number of absorbed denials among attempts `i .. end - 1`. */
  function CountDenied(p: Policy, outcomes: seq<Attempt>, i: nat, end: nat): nat
    requires i <= end <= |outcomes|
    decreases end - i
  {
    if i == end then 0
    else (if Denied(p, outcomes[i], i) then 1 else 0) + CountDenied(p, outcomes, i + 1, end)
  }

  /** Every `onDeny` in a trace is for a denial status on a non-final attempt. */
  predicate DeniesOnlyEarly(p: Policy, events: seq<Event>) {
    forall e :: e in events && e.Deny? ==> e.attempt < p.retries && IsDenial(p, e.status)
  }

  /** The loop from attempt `i` on: `for (let i = ...; i <= retries; i++) try { ... } catch { ... }`. */
  function Loop(p: Policy, outcomes: seq<Attempt>, i: nat): (r: Run)
    requires WellFormed(p)
    requires i <= p.retries < |outcomes|
    ensures i < r.attempts <= p.retries + 1
    ensures r.result.Returned? <==> exists j :: i <= j <= p.retries && Succeeds(outcomes[j])
    ensures r.result.Returned? ==>
              && Succeeds(outcomes[r.attempts - 1])
              && r.result.value == outcomes[r.attempts - 1].body.value
              && forall j :: i <= j < r.attempts - 1 ==> !Succeeds(outcomes[j])
    ensures r.result.Threw? ==> r.attempts == p.retries + 1
    ensures r.denials == CountDenied(p, outcomes, i, r.attempts)
    ensures DeniesOnlyEarly(p, r.events)
    decreases p.retries - i
  {
    var a := outcomes[i];
    if Succeeds(a) then
      Run(Returned(a.body.value), i + 1, 0, [Acquire] + (if p.tick then [SuccessTick] else []))
    else
      // Everything but a clean success: the events of this attempt, then either the next attempt or the rethrow.
      var ticked := a.Reply? && Ok(a.status) && p.tick;
      var here := [Acquire] + (if ticked then [SuccessTick] else []);
      var denied := Denied(p, a, i);
      if i == p.retries then
        Run(Threw, i + 1, 0, here)
      else
        var rest := Loop(p, outcomes, i + 1);
        var wait := if denied then DenyEvents(p, a.status, i) else ErrorEvents(p, i);
        Run(rest.result, rest.attempts, rest.denials + (if denied then 1 else 0), here + wait + rest.events)
  }

  /** A request with `retries` retries. */
  function Request(p: Policy, outcomes: seq<Attempt>): (r: Run)
    requires WellFormed(p)
    requires p.retries < |outcomes|
    ensures 1 <= r.attempts <= p.retries + 1
    ensures r.result.Returned? <==> exists j :: 0 <= j <= p.retries && Succeeds(outcomes[j])
    ensures r.denials <= r.attempts
  {
    var r := Loop(p, outcomes, 0);
    CountBound(p, outcomes, 0, r.attempts);
    r
  }

  lemma {:induction false} CountBound(p: Policy, outcomes: seq<Attempt>, i: nat, end: nat)
    requires i <= end <= |outcomes|
    ensures CountDenied(p, outcomes, i, end) <= end - i
    decreases end - i
  {
    if i < end {
      CountBound(p, outcomes, i + 1, end);
    }
  }

  // ------------------------------------------------------------ the loops

  /** `postJson` of the open-entry exporter: limiter throttling on 429/403/5xx,
      otherwise a 220 * 1.5^i ms pause. */
  function EntryPostJson(retries: nat): (p: Policy)
    ensures WellFormed(p)
  {
    Policy(retries, true, Throttle, Exponential(220, 3, 2), true)
  }

  /** `postJson` of the position-history exporter: as above with a 250 ms base. */
  function OrdersPostJson(retries: nat): (p: Policy)
    ensures WellFormed(p)
  {
    Policy(retries, true, Throttle, Exponential(250, 3, 2), true)
  }

  /** `getJson` of the open-entry exporter: 403 is not a denial; other failures pause 180..379 ms. */
  function EntryGetJson(retries: nat): (p: Policy)
    ensures WellFormed(p)
  {
    Policy(retries, false, Throttle, Uniform(180, 200), true)
  }

  /** `fetchJson` of the MEXC exporter: denials sleep 900 (403) or 600 ms times
      1.6^i without touching the bucket, other failures 500 * 1.5^i. */
  function MexcFetchJson(retries: nat): (p: Policy)
    ensures WellFormed(p)
  {
    Policy(retries, true, Backoff(900, 600, 8, 5), Exponential(500, 3, 2), false)
  }

  /** A status that is neither ok nor a denial still does not end a non-final
      attempt: it throws inside the `try`, the `catch` swallows it, and the
      loop pauses and goes on. */
  lemma NonDenialIsRetried(p: Policy, outcomes: seq<Attempt>, i: nat)
    requires WellFormed(p)
    requires i < p.retries < |outcomes|
    requires outcomes[i].Reply? && !Ok(outcomes[i].status) && !IsDenial(p, outcomes[i].status)
    ensures Loop(p, outcomes, i).attempts > i + 1
    ensures Loop(p, outcomes, i).events[..1 + |ErrorEvents(p, i)|] == [Acquire] + ErrorEvents(p, i)
  {
  }

  /** An ok response whose body does not parse has already ticked the limiter
      and is then retried like any other failure. */
  lemma BadBodyTicksThenRetries(p: Policy, outcomes: seq<Attempt>, i: nat)
    requires WellFormed(p) && p.tick
    requires i < p.retries < |outcomes|
    requires outcomes[i].Reply? && Ok(outcomes[i].status) && outcomes[i].body.None?
    ensures Loop(p, outcomes, i).events[..2] == [Acquire, SuccessTick]
    ensures Loop(p, outcomes, i).attempts > i + 1
  {
  }

  /** For `getJson` a 403 is an ordinary failure: no rate reduction, a random pause. */
  lemma GetJsonForbiddenIsNotDenial(retries: nat, outcomes: seq<Attempt>)
    requires 0 < retries < |outcomes|
    requires outcomes[0].Reply? && outcomes[0].status == 403
    ensures Loop(EntryGetJson(retries), outcomes, 0).events[..2] == [Acquire, SleepBetween(180, 379)]
    ensures Loop(EntryGetJson(retries), outcomes, 0).denials
         == Loop(EntryGetJson(retries), outcomes, 1).denials
  {
  }

  /** For `postJson` the same 403 on a non-final attempt throttles the limiter. */
  lemma PostJsonForbiddenIsDenial(retries: nat, outcomes: seq<Attempt>)
    requires 0 < retries < |outcomes|
    requires outcomes[0].Reply? && outcomes[0].status == 403
    ensures Loop(EntryPostJson(retries), outcomes, 0).events[..2] == [Acquire, Deny(403, 0)]
    ensures Loop(EntryPostJson(retries), outcomes, 0).denials
         == Loop(EntryPostJson(retries), outcomes, 1).denials + 1
  {
  }

  /** The MEXC back-off after a 403 on attempt `i` is 900 * 1.6^i ms. */
  lemma MexcForbiddenBackoff(retries: nat, outcomes: seq<Attempt>, i: nat)
    requires i < retries < |outcomes|
    requires outcomes[i].Reply? && outcomes[i].status == 403
    ensures Loop(MexcFetchJson(retries), outcomes, i).events[..2]
         == [Acquire, Sleep(900.0 * Growth(8, 5, i))]
  {
    var r := Loop(MexcFetchJson(retries), outcomes, i);
    assert Denied(MexcFetchJson(retries), outcomes[i], i);
  }

  /** A denial on the final attempt is not absorbed: it is rethrown. */
  lemma FinalDenialThrows(p: Policy, outcomes: seq<Attempt>)
    requires WellFormed(p)
    requires p.retries < |outcomes|
    requires outcomes[p.retries].Reply? && IsDenial(p, outcomes[p.retries].status)
    ensures Loop(p, outcomes, p.retries) == Run(Threw, p.retries + 1, 0, [Acquire])
  {
  }
}
