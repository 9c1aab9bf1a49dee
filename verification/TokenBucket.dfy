/**
 The token bucket of backend/app/core/rate_limiter.py, lines 134-195. Only an
 admission stores the bucket, and each one lets the stored key live for twice the
 window. Times and tokens are real numbers.
 */
module TokenBucket {
  import opened Wrappers

  datatype Bucket = Bucket(tokens: real, last: real)

  datatype Answer = Answer(allowed: bool, limit: int, remaining: int, reset: int, retryAfter: Option<int>)

  function Trunc(x: real): int {
    if x >= 0.0 then x.Floor else -((-x).Floor)
  }

  function Rate(limit: int, window: int): real
    requires window > 0
  {
    limit as real / window as real
  }

  /** Tokens before the call: refilled since the last admission, or a full bucket. */
  function Available(b: Option<Bucket>, limit: int, window: int, now: real): real
    requires window > 0
  {
    if b.None? then limit as real
    else
      var refilled := b.value.tokens + (now - b.value.last) * Rate(limit, window);
      if refilled < limit as real then refilled else limit as real
  }

  /** The answer when Redis raises. */
  function Fallback(limit: int): Answer {
    Answer(true, limit, limit, 0, None)
  }

  /** Spend a token if there is one. A rate of zero means a limit of zero, so no
      token, and the denial divides by the rate: the error is swallowed and the
      fallback lets the call through. */
  function Spend(b: Option<Bucket>, tokens: real, rate: real, limit: int, now: real): (Option<Bucket>, Answer) {
    if rate == 0.0 then
      (b, Fallback(limit))
    else if tokens >= 1.0 then
      (Some(Bucket(tokens - 1.0, now)),
       Answer(true, limit, Trunc(tokens - 1.0), Trunc(now + (limit as real - (tokens - 1.0)) / rate), None))
    else
      var wait := (1.0 - tokens) / rate;
      (b, Answer(false, limit, 0, Trunc(now + wait), Some(if Trunc(wait) > 1 then Trunc(wait) else 1)))
  }

  function Step(b: Option<Bucket>, limit: int, window: int, now: real): (Option<Bucket>, Answer)
    requires window > 0
  {
    Spend(b, Available(b, limit, window, now), Rate(limit, window), limit, now)
  }

  /** The key is gone once twice the window has passed since the last admission. */
  function Unexpired(b: Option<Bucket>, window: int, now: real): Option<Bucket> {
    if b.Some? && now >= b.value.last + 2.0 * window as real then None else b
  }

  function ExpiringStep(b: Option<Bucket>, limit: int, window: int, now: real): (Option<Bucket>, Answer)
    requires window > 0
  {
    Step(Unexpired(b, window, now), limit, window, now)
  }

  function Run(calls: seq<real>, limit: int, window: int): (Option<Bucket>, seq<Answer>)
    requires window > 0
  {
    if calls == [] then (None, [])
    else
      var (b, answers) := Run(calls[..|calls| - 1], limit, window);
      var (b', answer) := Step(b, limit, window, calls[|calls| - 1]);
      (b', answers + [answer])
  }

  function ExpiringRun(calls: seq<real>, limit: int, window: int): (Option<Bucket>, seq<Answer>)
    requires window > 0
  {
    if calls == [] then (None, [])
    else
      var (b, answers) := ExpiringRun(calls[..|calls| - 1], limit, window);
      var (b', answer) := ExpiringStep(b, limit, window, calls[|calls| - 1]);
      (b', answers + [answer])
  }

  ghost predicate Ordered(calls: seq<real>) {
    forall i, j :: 0 <= i < j < |calls| ==> calls[i] <= calls[j]
  }

  // ----- arithmetic of the refill -----

  lemma {:induction false} RatePositive(limit: int, window: int)
    requires window > 0 && limit >= 1
    ensures Rate(limit, window) > 0.0
    ensures Rate(limit, window) * (window as real) == limit as real
  {
  }

  lemma {:induction false} RateZeroIff(limit: int, window: int)
    requires window > 0
    ensures Rate(limit, window) == 0.0 <==> limit == 0
  {
  }

  lemma {:induction false} MulMono(x: real, y: real, r: real)
    requires x <= y && r >= 0.0
    ensures x * r <= y * r
  {
  }

  // ----- what an answer says -----

  /** The tokens at a time: the limit for a new bucket, else those that were left at the
      last admission and a share of the limit for the part of the window since then. */
  predicate HasTokens(b: Option<Bucket>, limit: int, window: int, now: real, tokens: real)
    requires window > 0
  {
    if b.None? then tokens == limit as real
    else
      var refilled := b.value.tokens + limit as real * ((now - b.value.last) / window as real);
      tokens == if refilled < limit as real then refilled else limit as real
  }

  predicate IsFloor(n: int, x: real) {
    n as real <= x < n as real + 1.0
  }

  /** An answer for so many tokens that come back at a rate. */
  predicate Tells(b: Option<Bucket>, tokens: real, rate: real, limit: int, now: real, after: Option<Bucket>, answer: Answer)
    requires rate > 0.0
  {
    && answer.limit == limit
    && (answer.allowed <==> tokens >= 1.0)
    && (answer.allowed ==>
          && after == Some(Bucket(tokens - 1.0, now)) && answer.retryAfter == None
          && IsFloor(answer.remaining, tokens - 1.0)
          && IsFloor(answer.reset, now + (limit as real - (tokens - 1.0)) / rate))
    && (!answer.allowed ==>
          && after == b && answer.remaining == 0 && answer.retryAfter.Some? && answer.retryAfter.value >= 1
          && var wait := (1.0 - tokens) / rate;
             && (IsFloor(answer.retryAfter.value, wait) || (answer.retryAfter.value == 1 && wait < 1.0))
             && IsFloor(answer.reset, now + wait))
  }

  lemma {:induction false} SpendTells(b: Option<Bucket>, tokens: real, rate: real, limit: int, now: real)
    requires rate > 0.0 && now >= 0.0 && tokens <= limit as real
    ensures var (after, answer) := Spend(b, tokens, rate, limit, now);
            Tells(b, tokens, rate, limit, now, after, answer)
  {
    if tokens < 1.0 {
      QuotientNotNegative(1.0 - tokens, rate);
    } else {
      QuotientNotNegative(limit as real - (tokens - 1.0), rate);
    }
  }

  lemma {:induction false} HasAvailable(b: Option<Bucket>, limit: int, window: int, now: real)
    requires window > 0
    ensures HasTokens(b, limit, window, now, Available(b, limit, window, now))
  {
    if b.Some? {
      Share(now - b.value.last, limit as real, window as real);
    }
  }

  /** A call is admitted exactly if there is a whole token, which it spends; it is told
      how many are left and when the bucket is full, a denied one when there is a token
      again, in whole seconds and at least one. */
  lemma {:induction false} AnswerMeaning(b: Option<Bucket>, limit: int, window: int, now: real) returns (tokens: real)
    requires window > 0 && limit >= 1 && now >= 0.0
    ensures HasTokens(b, limit, window, now, tokens)
    ensures var (after, answer) := Step(b, limit, window, now);
            limit as real / window as real > 0.0
            && Tells(b, tokens, limit as real / window as real, limit, now, after, answer)
  {
    tokens := Available(b, limit, window, now);
    RatePositive(limit, window);
    HasAvailable(b, limit, window, now);
    SpendTells(b, tokens, Rate(limit, window), limit, now);
  }

  lemma {:induction false} Share(elapsed: real, limit: real, window: real)
    requires window > 0.0
    ensures elapsed * (limit / window) == limit * (elapsed / window)
  {
  }

  lemma {:induction false} QuotientNotNegative(x: real, y: real)
    requires x >= 0.0 && y > 0.0
    ensures x / y >= 0.0
  {
  }

  // ----- the key's expiry is not observable -----

  ghost predicate Sane(b: Option<Bucket>, limit: int, now: real) {
    b.Some? ==> 0.0 <= b.value.tokens <= limit as real - 1.0 && b.value.last <= now
  }

  lemma {:induction false} FullAfterWindow(b: Bucket, limit: int, window: int, now: real)
    requires window > 0 && limit >= 1 && 0.0 <= b.tokens && now >= b.last + 2.0 * window as real
    ensures Available(Some(b), limit, window, now) == limit as real
  {
    var r := Rate(limit, window);
    RatePositive(limit, window);
    MulMono(window as real, now - b.last, r);
  }

  lemma {:induction false} StepStaysSane(b: Option<Bucket>, limit: int, window: int, before: real, now: real)
    requires window > 0 && limit >= 1 && Sane(b, limit, before) && before <= now
    ensures Sane(Step(b, limit, window, now).0, limit, now)
  {
  }

  lemma {:induction false} RunIsSane(calls: seq<real>, limit: int, window: int)
    requires window > 0 && limit >= 1 && Ordered(calls) && calls != []
    ensures Sane(Run(calls, limit, window).0, limit, calls[|calls| - 1])
  {
    var n := |calls| - 1;
    if n == 0 {
      StepStaysSane(None, limit, window, calls[0], calls[0]);
    } else {
      RunIsSane(calls[..n], limit, window);
      StepStaysSane(Run(calls[..n], limit, window).0, limit, window, calls[n - 1], calls[n]);
    }
  }

  lemma {:induction false} ExpiringStepSame(b: Option<Bucket>, limit: int, window: int, before: real, now: real)
    requires window > 0 && limit >= 1 && Sane(b, limit, before)
    ensures ExpiringStep(b, limit, window, now) == Step(b, limit, window, now)
  {
    if Unexpired(b, window, now) != b {
      FullAfterWindow(b.value, limit, window, now);
    }
  }

  /** Letting the key expire changes no answer and no stored bucket: an expired
      bucket would have been full again. */
  lemma {:induction false} ExpiryIsInvisible(calls: seq<real>, limit: int, window: int)
    requires window > 0 && limit >= 1 && Ordered(calls)
    ensures ExpiringRun(calls, limit, window) == Run(calls, limit, window)
  {
    if calls != [] {
      var n := |calls| - 1;
      ExpiryIsInvisible(calls[..n], limit, window);
      if n > 0 {
        RunIsSane(calls[..n], limit, window);
      }
      ExpiringStepSame(Run(calls[..n], limit, window).0, limit, window, if n == 0 then calls[0] else calls[n - 1], calls[n]);
    }
  }

  // ----- the bound -----

  lemma {:induction false} RunAnswersEveryCall(calls: seq<real>, limit: int, window: int)
    requires window > 0
    ensures |Run(calls, limit, window).1| == |calls|
  {
    if calls != [] {
      RunAnswersEveryCall(calls[..|calls| - 1], limit, window);
    }
  }

  /** Admissions at or after `from`. */
  function AdmittedSince(calls: seq<real>, answers: seq<Answer>, from: real): nat
    requires |calls| == |answers|
  {
    if calls == [] then 0
    else
      var n := |calls| - 1;
      AdmittedSince(calls[..n], answers[..n], from) + if answers[n].allowed && calls[n] >= from then 1 else 0
  }

  /** Admissions from `from` to `to`, both included. */
  function AdmittedBetween(calls: seq<real>, answers: seq<Answer>, from: real, to: real): nat
    requires |calls| == |answers|
  {
    if calls == [] then 0
    else
      var n := |calls| - 1;
      AdmittedBetween(calls[..n], answers[..n], from, to) + if answers[n].allowed && from <= calls[n] <= to then 1 else 0
  }

  /** Admissions so far and tokens left never exceed the limit plus the refill since the first of them. */
  ghost predicate Budget(count: nat, b: Option<Bucket>, limit: int, window: int, from: real)
    requires window > 0
  {
    count > 0 ==>
      && b.Some? && from <= b.value.last
      && count as real + b.value.tokens <= limit as real + (b.value.last - from) * Rate(limit, window)
  }

  lemma {:induction false} StepKeepsBudget(count: nat, b: Option<Bucket>, limit: int, window: int, from: real,
                                           before: real, now: real)
    requires window > 0 && limit >= 1 && Sane(b, limit, before) && before <= now && Budget(count, b, limit, window, from)
    ensures var (b', answer) := Step(b, limit, window, now);
            Budget(count + if answer.allowed && now >= from then 1 else 0, b', limit, window, from)
  {
  }

  lemma {:induction false} RunKeepsBudget(calls: seq<real>, limit: int, window: int, from: real)
    requires window > 0 && limit >= 1 && Ordered(calls)
    ensures |Run(calls, limit, window).1| == |calls|
    ensures Budget(AdmittedSince(calls, Run(calls, limit, window).1, from), Run(calls, limit, window).0, limit, window, from)
  {
    RunAnswersEveryCall(calls, limit, window);
    if calls != [] {
      var n := |calls| - 1;
      RunKeepsBudget(calls[..n], limit, window, from);
      assert Run(calls, limit, window).1[..n] == Run(calls[..n], limit, window).1;
      if n > 0 {
        RunIsSane(calls[..n], limit, window);
      }
      StepKeepsBudget(AdmittedSince(calls[..n], Run(calls[..n], limit, window).1, from), Run(calls[..n], limit, window).0,
                      limit, window, from, if n == 0 then calls[0] else calls[n - 1], calls[n]);
    }
  }

  lemma {:induction false} BetweenIsSince(calls: seq<real>, answers: seq<Answer>, from: real, to: real)
    requires |calls| == |answers| && forall i :: 0 <= i < |calls| ==> calls[i] <= to
    ensures AdmittedBetween(calls, answers, from, to) == AdmittedSince(calls, answers, from)
  {
    if calls != [] {
      var n := |calls| - 1;
      BetweenIsSince(calls[..n], answers[..n], from, to);
    }
  }

  /** The limit and what refills during `span`. */
  function Allowance(limit: int, window: int, span: real): real
    requires window > 0
  {
    limit as real + span * Rate(limit, window)
  }

  lemma {:induction false} AllowancePositive(limit: int, window: int, span: real)
    requires window > 0 && limit >= 1 && span >= 0.0
    ensures Allowance(limit, window, span) >= 1.0
  {
  }

  lemma {:induction false} BudgetFits(count: nat, b: Option<Bucket>, limit: int, window: int, from: real,
                                      last: real, to: real)
    requires window > 0 && limit >= 1 && from <= to && last <= to
    requires Sane(b, limit, last) && Budget(count, b, limit, window, from)
    ensures count as real <= Allowance(limit, window, to - from)
  {
  }

  lemma {:induction false} BoundAtTheEnd(calls: seq<real>, limit: int, window: int, from: real, to: real)
    requires window > 0 && limit >= 1 && Ordered(calls) && from <= to && calls != [] && calls[|calls| - 1] <= to
    ensures |Run(calls, limit, window).1| == |calls|
    ensures AdmittedSince(calls, Run(calls, limit, window).1, from) as real <= Allowance(limit, window, to - from)
  {
    RunKeepsBudget(calls, limit, window, from);
    RunIsSane(calls, limit, window);
    BudgetFits(AdmittedSince(calls, Run(calls, limit, window).1, from), Run(calls, limit, window).0,
               limit, window, from, calls[|calls| - 1], to);
  }

  /** In any interval at most the limit and the refill of that interval is admitted. */
  lemma {:induction false} IntervalBound(calls: seq<real>, limit: int, window: int, from: real, to: real)
    requires window > 0 && limit >= 1 && Ordered(calls) && from <= to
    ensures Bounded(calls, limit, window, from, to)
  {
    RunAnswersEveryCall(calls, limit, window);
    AllowancePositive(limit, window, to - from);
    if calls != [] {
      var n := |calls| - 1;
      var answers := Run(calls, limit, window).1;
      if calls[n] > to {
        IntervalBound(calls[..n], limit, window, from, to);
        assert answers[..n] == Run(calls[..n], limit, window).1;
        assert AdmittedBetween(calls, answers, from, to) == AdmittedBetween(calls[..n], answers[..n], from, to);
      } else {
        BoundAtTheEnd(calls, limit, window, from, to);
        BetweenIsSince(calls, answers, from, to);
      }
    }
  }

  ghost predicate Bounded(calls: seq<real>, limit: int, window: int, from: real, to: real)
    requires window > 0
  {
    && |Run(calls, limit, window).1| == |calls|
    && AdmittedBetween(calls, Run(calls, limit, window).1, from, to) as real <= Allowance(limit, window, to - from)
  }

  /** The bound needs a limit of at least one: with zero every call is let through. */
  lemma {:induction false} ZeroLimitAdmitsAll(calls: seq<real>, window: int)
    requires window > 0
    ensures |Run(calls, 0, window).1| == |calls|
    ensures forall i :: 0 <= i < |calls| ==> Run(calls, 0, window).1[i] == Answer(true, 0, 0, 0, None)
  {
    RunAnswersEveryCall(calls, 0, window);
    if calls != [] {
      ZeroLimitAdmitsAll(calls[..|calls| - 1], window);
      RateZeroIff(0, window);
    }
  }

  /** For a limit that is not negative, the interval bound holds of every run exactly when the limit is not zero. */
  lemma {:induction false} BoundIffPositive(limit: nat, window: int)
    requires window > 0
    ensures limit >= 1 <==> forall calls: seq<real>, from: real, to: real :: Ordered(calls) && from <= to ==> Bounded(calls, limit, window, from, to)
  {
    if limit >= 1 {
      forall calls: seq<real>, from: real, to: real | Ordered(calls) && from <= to
        ensures Bounded(calls, limit, window, from, to)
      {
        IntervalBound(calls, limit, window, from, to);
      }
    } else {
      var calls := [1.0];
      ZeroLimitAdmitsAll(calls, window);
      RateZeroIff(0, window);
      assert calls[..0] == [];
      assert Ordered(calls) && !Bounded(calls, limit, window, 1.0, 1.0);
    }
  }

  // ----- what the wait of a denied call is worth -----

  /** Time until the next token. */
  function Wait(b: Option<Bucket>, limit: int, window: int, now: real): real
    requires window > 0 && limit >= 1
  {
    RateZeroIff(limit, window);
    (1.0 - Available(b, limit, window, now)) / Rate(limit, window)
  }

  lemma {:induction false} RefillReaches(tokens: real, rate: real, seconds: real)
    requires rate > 0.0
    ensures tokens + seconds * rate >= 1.0 <==> (1.0 - tokens) / rate <= seconds
  {
    var wait := (1.0 - tokens) / rate;
    assert wait * rate == 1.0 - tokens;
    if wait <= seconds {
      MulMono(wait, seconds, rate);
    } else {
      Shorter(seconds, wait, rate);
    }
  }

  lemma {:induction false} Shorter(x: real, y: real, r: real)
    requires x < y && r > 0.0
    ensures x * r < y * r
  {
  }

  lemma {:induction false} Distribute(x: real, y: real, r: real)
    ensures (x + y) * r == x * r + y * r
  {
  }

  lemma {:induction false} WholeSecondsReach(wait: real, seconds: int)
    requires wait > 0.0 && seconds == (if Trunc(wait) > 1 then Trunc(wait) else 1)
    ensures wait <= seconds as real <==> wait == wait.Floor as real || wait <= 1.0
    ensures wait <= (seconds + 1) as real
  {
  }

  lemma {:induction false} RefilledLater(b: Bucket, rate: real, now: real, seconds: real)
    ensures b.tokens + (now + seconds - b.last) * rate == b.tokens + (now - b.last) * rate + seconds * rate
  {
    Distribute(now - b.last, seconds, rate);
    assert now + seconds - b.last == (now - b.last) + seconds;
  }

  /** A bucket short of a token has one some seconds later exactly when they cover the wait. */
  lemma {:induction false} EmptyBucketAdmitsIff(b: Option<Bucket>, limit: int, window: int, now: real, seconds: nat)
    requires window > 0 && limit >= 1 && Available(b, limit, window, now) < 1.0
    ensures Step(b, limit, window, now + seconds as real).1.allowed <==> Wait(b, limit, window, now) <= seconds as real
  {
    var rate, tokens, later := Rate(limit, window), Available(b, limit, window, now), now + seconds as real;
    RatePositive(limit, window);
    RefillReaches(tokens, rate, seconds as real);
    RefilledLater(b.value, rate, now, seconds as real);
    assert Available(b, limit, window, later) >= 1.0 <==> tokens + seconds as real * rate >= 1.0;
    assert Wait(b, limit, window, now) == (1.0 - tokens) / rate;
  }

  /** The state of a run that has just denied a call. */
  lemma {:induction false} DeniedIsShort(calls: seq<real>, limit: int, window: int, now: real)
    requires window > 0 && limit >= 1 && Ordered(calls + [now])
    requires !ExpiringStep(ExpiringRun(calls, limit, window).0, limit, window, now).1.allowed
    ensures var (b, answer) := ExpiringStep(ExpiringRun(calls, limit, window).0, limit, window, now);
            && Sane(b, limit, now) && Available(b, limit, window, now) < 1.0
            && var wait := Wait(b, limit, window, now);
               answer.retryAfter == Some(if Trunc(wait) > 1 then Trunc(wait) else 1)
  {
    var last := if calls == [] then now else calls[|calls| - 1];
    assert forall i :: 0 <= i < |calls| ==> (calls + [now])[i] == calls[i];
    assert (calls + [now])[|calls|] == now;
    ExpiryIsInvisible(calls, limit, window);
    if calls != [] {
      RunIsSane(calls, limit, window);
    }
    DenialKeepsShort(Run(calls, limit, window).0, limit, window, last, now);
  }

  lemma {:induction false} DenialKeepsShort(b: Option<Bucket>, limit: int, window: int, before: real, now: real)
    requires window > 0 && limit >= 1 && Sane(b, limit, before) && before <= now
    requires !ExpiringStep(b, limit, window, now).1.allowed
    ensures var (b', answer) := ExpiringStep(b, limit, window, now);
            && Sane(b', limit, now) && Available(b', limit, window, now) < 1.0
            && var wait := Wait(b', limit, window, now);
               answer.retryAfter == Some(if Trunc(wait) > 1 then Trunc(wait) else 1)
  {
    ExpiringStepSame(b, limit, window, before, now);
    StepStaysSane(b, limit, window, before, now);
    RateZeroIff(limit, window);
  }

  lemma {:induction false} RetryOfShort(b: Option<Bucket>, limit: int, window: int, now: real, retry: int)
    requires window > 0 && limit >= 1 && Sane(b, limit, now) && Available(b, limit, window, now) < 1.0
    requires var wait := Wait(b, limit, window, now); retry == if Trunc(wait) > 1 then Trunc(wait) else 1
    ensures var wait := Wait(b, limit, window, now);
            && wait > 0.0
            && (ExpiringStep(b, limit, window, now + retry as real).1.allowed <==> wait == wait.Floor as real || wait <= 1.0)
            && ExpiringStep(b, limit, window, now + (retry + 1) as real).1.allowed
  {
    WaitPositive(b, limit, window, now);
    WholeSecondsReach(Wait(b, limit, window, now), retry);
    EmptyBucketAdmitsIff(b, limit, window, now, retry);
    EmptyBucketAdmitsIff(b, limit, window, now, retry + 1);
    ExpiringStepSame(b, limit, window, now, now + retry as real);
    ExpiringStepSame(b, limit, window, now, now + (retry + 1) as real);
  }

  lemma {:induction false} WaitPositive(b: Option<Bucket>, limit: int, window: int, now: real)
    requires window > 0 && limit >= 1 && Available(b, limit, window, now) < 1.0
    ensures Wait(b, limit, window, now) > 0.0
  {
    RatePositive(limit, window);
  }

  /** A call denied at the end of a run and made again after the wait that it was told
      is admitted exactly when the time to the next token was a whole number of
      seconds or at most one second. One second more always suffices. */
  lemma {:induction false} RetryAdmittedIff(calls: seq<real>, limit: int, window: int, now: real)
    requires window > 0 && limit >= 1 && Ordered(calls + [now])
    requires !ExpiringStep(ExpiringRun(calls, limit, window).0, limit, window, now).1.allowed
    ensures var (b, answer) := ExpiringStep(ExpiringRun(calls, limit, window).0, limit, window, now);
            && answer.retryAfter.Some?
            && var wait, retry := Wait(b, limit, window, now), answer.retryAfter.value;
               && wait > 0.0
               && (ExpiringStep(b, limit, window, now + retry as real).1.allowed <==> wait == wait.Floor as real || wait <= 1.0)
               && ExpiringStep(b, limit, window, now + (retry + 1) as real).1.allowed
  {
    DeniedIsShort(calls, limit, window, now);
    var (b, answer) := ExpiringStep(ExpiringRun(calls, limit, window).0, limit, window, now);
    RetryOfShort(b, limit, window, now, answer.retryAfter.value);
  }

  // ----- the hash in place -----

  /** The stored hashes; a hash outlives its last admission by twice the window. */
  class BucketStore {
    var hashes: map<string, Bucket>

    constructor ()
      ensures hashes == map[]
    {
      hashes := map[];
    }

    ghost function Stored(id: string): Option<Bucket>
      reads this
    {
      if id in hashes then Some(hashes[id]) else None
    }

    /** The refilled tokens of a stored and unexpired hash, else a full bucket. */
    method ReadTokens(id: string, limit: int, window: int, now: real) returns (tokens: real)
      requires window > 0
      ensures tokens == Available(Unexpired(Stored(id), window, now), limit, window, now)
    {
      tokens := limit as real;
      if id in hashes && now < hashes[id].last + 2.0 * window as real {
        var elapsed := now - hashes[id].last;
        var refilled := hashes[id].tokens + elapsed * Rate(limit, window);
        if refilled < limit as real {
          tokens := refilled;
        }
      }
    }

    method TokenBucketAllowed(id: string, limit: int, window: int, now: real) returns (answer: Answer)
      requires window > 0
      modifies this
      ensures answer == ExpiringStep(old(Stored(id)), limit, window, now).1
      ensures answer.allowed && limit != 0 ==> Stored(id) == ExpiringStep(old(Stored(id)), limit, window, now).0
      ensures !answer.allowed || limit == 0 ==> hashes == old(hashes)
      ensures forall other :: other != id ==> Stored(other) == old(Stored(other))
    {
      var rate := Rate(limit, window);
      RateZeroIff(limit, window);
      var tokens := ReadTokens(id, limit, window, now);
      ghost var spent := Spend(Unexpired(Stored(id), window, now), tokens, rate, limit, now);
      assert spent == ExpiringStep(Stored(id), limit, window, now);
      if rate == 0.0 {
        return Answer(true, limit, limit, 0, None);
      }
      if tokens >= 1.0 {
        tokens := tokens - 1.0;
        hashes := hashes[id := Bucket(tokens, now)];
        return Answer(true, limit, Trunc(tokens), Trunc(now + (limit as real - tokens) / rate), None);
      }
      var wait := (1.0 - tokens) / rate;
      return Answer(false, limit, 0, Trunc(now + wait), Some(if Trunc(wait) > 1 then Trunc(wait) else 1));
    }
  }
}
