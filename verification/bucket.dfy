/** The fixed-rate token bucket of the MEXC order exporter.

    MAX_RPS is read with `Number(...)`, so it may be fractional; it is both
    the rate and the bucket size, and the bucket starts holding MAX_RPS
    tokens. A refill credits `floor(elapsed seconds * rps)` whole tokens, never
    more than the size. The exporter admits a request whenever the count is
    positive (`PollAsWritten`), so with a fractional rate a request taken at
    half a token leaves the bucket half a token in debt; `Poll` is the
    admission that needs a whole token, which keeps the count within the
    bucket, and the two agree whenever the rate is whole. The clock is a
    parameter. */
module Bucket {
  import opened Arith

  /** MAX_RPS, which is also BUCKET_SIZE. */
  datatype Config = Config(rps: real)

  datatype State = State(tokens: real, lastRefill: int)

  function Init(c: Config, now: int): (s: State)
    ensures c.rps >= 0.0 ==> Valid(c, s)
    ensures s.tokens == c.rps
  {
    State(c.rps, now)
  }

  /** The count lies between an empty and a full bucket. */
  predicate Valid(c: Config, s: State) {
    0.0 <= s.tokens <= c.rps
  }

  /** `Math.floor(elapsed * MAX_RPS)`, the whole tokens earned since the last refill. */
  function Earned(c: Config, s: State, now: int): int {
    ((now - s.lastRefill) as real / 1000.0 * c.rps).Floor
  }

  /** One refill: credit the earned tokens up to the bucket size; the refill
      time moves only when at least one token was earned, so fractions of a
      token keep accumulating across polls. */
  function Refill(c: Config, s: State, now: int): (r: State)
    ensures Earned(c, s, now) > 0 ==> r.lastRefill == now && r.tokens <= c.rps
    ensures Earned(c, s, now) > 0 ==> r.tokens == c.rps || r.tokens == s.tokens + Earned(c, s, now) as real
    ensures Earned(c, s, now) <= 0 ==> r == s
    ensures Valid(c, s) ==> Valid(c, r)
    ensures Whole(c.rps) && Whole(s.tokens) ==> Whole(r.tokens)
  {
    var refill := Earned(c, s, now);
    WholeShift(s.tokens, refill);
    if refill > 0 then State(MinR(c.rps, s.tokens + refill as real), now) else s
  }

  datatype Admission = Admission(state: State, admitted: bool, polls: nat)

  /** The `while (true)` of `rateLimit` as written: refill at each clock
      reading and take a token as soon as the count is positive. A count
      that was at most the bucket size stays so, and a debt never reaches a
      whole token. */
  function PollAsWritten(c: Config, s: State, clocks: seq<int>): (r: Admission)
    ensures r.admitted ==> 1 <= r.polls <= |clocks|
    ensures !r.admitted ==> r.polls == |clocks|
    ensures !r.admitted && |clocks| > 0 ==> r.state.tokens <= 0.0
    ensures Valid(c, s) ==> -1.0 < r.state.tokens <= c.rps
    decreases |clocks|
  {
    if |clocks| == 0 then Admission(s, false, 0)
    else
      var t := Refill(c, s, clocks[0]);
      if t.tokens > 0.0 then Admission(t.(tokens := t.tokens - 1.0), true, 1)
      else
        var rest := PollAsWritten(c, t, clocks[1..]);
        rest.(polls := rest.polls + 1)
  }

  /** With MAX_RPS = 2.5 and a clock that does not move, three requests in a
      row are all admitted and the third leaves the bucket at -0.5 tokens. */
  lemma AsWrittenOverdraws()
    ensures var c := Config(2.5);
            var s0 := Init(c, 0);
            var s1 := PollAsWritten(c, s0, [0]);
            var s2 := PollAsWritten(c, s1.state, [0]);
            var s3 := PollAsWritten(c, s2.state, [0]);
            && Valid(c, s0) && s1.admitted && s2.admitted && s3.admitted
            && s3.state.tokens == -0.5 && !Valid(c, s3.state)
  {
  }

  /** The admission the bucket needs: take a token only when a whole one is
      there, so the count stays between 0 and the bucket size. */
  function Poll(c: Config, s: State, clocks: seq<int>): (r: Admission)
    ensures r.admitted ==> 1 <= r.polls <= |clocks|
    ensures !r.admitted ==> r.polls == |clocks|
    ensures !r.admitted && |clocks| > 0 ==> r.state.tokens < 1.0
    ensures Valid(c, s) ==> Valid(c, r.state)
    decreases |clocks|
  {
    if |clocks| == 0 then Admission(s, false, 0)
    else
      var t := Refill(c, s, clocks[0]);
      if t.tokens >= 1.0 then Admission(t.(tokens := t.tokens - 1.0), true, 1)
      else
        var rest := Poll(c, t, clocks[1..]);
        rest.(polls := rest.polls + 1)
  }

  /** With a whole rate the count is always whole, and then a positive count
      is a whole token: the exporter's admission and `Poll` coincide. */
  lemma {:induction false} WholeRateAgrees(c: Config, s: State, clocks: seq<int>)
    requires Whole(c.rps) && Whole(s.tokens)
    ensures PollAsWritten(c, s, clocks) == Poll(c, s, clocks)
    ensures Whole(Poll(c, s, clocks).state.tokens)
    decreases |clocks|
  {
    if |clocks| > 0 {
      var t := Refill(c, s, clocks[0]);
      WholePositive(t.tokens);
      if t.tokens >= 1.0 {
        WholeShift(t.tokens, -1);
      } else {
        WholeRateAgrees(c, t, clocks[1..]);
      }
    }
  }

  lemma WholePositive(x: real)
    requires Whole(x)
    ensures x > 0.0 <==> x >= 1.0
  {
    assert x > 0.0 ==> x.Floor >= 1;
  }

  /** Requests that find a token are admitted at the first poll, and a poll a
      full second after the last refill always finds one when the rate is at
      least one token per second. */
  lemma SecondLaterAdmits(c: Config, s: State, clocks: seq<int>)
    requires Valid(c, s) && c.rps >= 1.0
    requires |clocks| >= 1 && clocks[0] >= s.lastRefill + 1000
    ensures Poll(c, s, clocks).admitted && Poll(c, s, clocks).polls == 1
    ensures PollAsWritten(c, s, clocks).admitted && PollAsWritten(c, s, clocks).polls == 1
  {
    var e := clocks[0] - s.lastRefill;
    assert e as real / 1000.0 >= 1.0;
    assert e as real / 1000.0 * c.rps >= c.rps;
    assert Earned(c, s, clocks[0]) >= 1;
  }

  /** An admission leaves the bucket at least one token short of full. */
  lemma {:induction false} PollSpendsOne(c: Config, s: State, clocks: seq<int>)
    requires Valid(c, s)
    ensures Poll(c, s, clocks).admitted ==> Poll(c, s, clocks).state.tokens <= c.rps - 1.0
    decreases |clocks|
  {
    if |clocks| > 0 {
      var t := Refill(c, s, clocks[0]);
      if t.tokens < 1.0 {
        PollSpendsOne(c, t, clocks[1..]);
      }
    }
  }
}
