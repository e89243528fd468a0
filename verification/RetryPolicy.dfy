/** How long a fragment worker waits before it tries again, and how often it tries. */
module RetryPolicy {
  import opened Arithmetic
  import opened ByteStore
  import opened FragmentAttempt

  /** 64-bit wrapping multiplication and addition. */
  function WrappingMul(x: nat, y: nat): nat { x * y % TWO_64 }

  function WrappingAdd(x: nat, y: nat): nat { (x + y) % TWO_64 }

  function SaturatingSub(x: nat, y: nat): nat { if x >= y then x - y else 0 }

  function ShiftRight(x: nat, k: nat): nat {
    if k == 0 then x else ShiftRight(x / 2, k - 1)
  }

  /** The top `log2` bits of a 64-bit hash of the seed. */
  function Jitter(seed: nat, log2: nat): nat
    requires log2 <= 64
  {
    ShiftRight(WrappingMul(seed, 0x517c_c1b7_2722_0a95), 64 - log2)
  }

  /** Shifting a number of `k + l` bits right by `k` leaves `l` bits. */
  lemma {:induction false} TopBitsBelow(x: nat, k: nat, l: nat)
    requires x < Pow2(k + l)
    ensures ShiftRight(x, k) < Pow2(l)
    decreases k
  {
    if k == 0 {
    } else {
      TopBitsBelow(x / 2, k - 1, l);
    }
  }

  /** A shift divides by a power of two. */
  lemma {:induction false} ShiftDivides(x: nat, k: nat)
    ensures ShiftRight(x, k) == x / Pow2(k)
    decreases k
  {
    if k == 0 {
    } else {
      ShiftDivides(x / 2, k - 1);
      HalfThenDivide(x, Pow2(k - 1), Pow2(k));
    }
  }

  lemma {:induction false} HalfThenDivide(x: nat, p: nat, r: nat)
    requires p > 0 && r == 2 * p
    ensures x / 2 / p == x / r
  {
    var q, low := x / 2 / p, x / 2 % p;
    assert x / 2 == q * p + low;
    assert x == q * r + (2 * low + x % 2) by {
      assert q * r == 2 * (q * p);
    }
    DivModUnique(x, r, q, 2 * low + x % 2);
  }

  /** The wait after a failed attempt: the server's `Retry-After`, capped, when it sent one;
      otherwise exponential backoff with full jitter from the fragment index and the attempt. */
  function BackoffSecs(index: nat, attempt: nat, e: Error): nat {
    if e.Throttled? && e.retryAfter.Some? then Min(e.retryAfter.value, 1024)
    else
      var exponent := Min(attempt, 10);
      var baseSecs := Pow2(exponent);
      if baseSecs <= 1 then 1
      else
        var seed := WrappingAdd(WrappingMul(index, 0x9E37_79B9_7F4A_7C15), attempt);
        Max(SaturatingSub(baseSecs, Jitter(seed, exponent)), 1)
  }

  /** The multiplicative hash of a round, in plain arithmetic. */
  function Hash(index: nat, attempt: nat): nat {
    (index * 0x9E37_79B9_7F4A_7C15 + attempt) * 0x517c_c1b7_2722_0a95 % TWO_64
  }

  lemma WrappingHash(index: nat, attempt: nat)
    ensures WrappingMul(WrappingAdd(WrappingMul(index, 0x9E37_79B9_7F4A_7C15), attempt), 0x517c_c1b7_2722_0a95)
         == Hash(index, attempt)
  {
    ModAdd(index * 0x9E37_79B9_7F4A_7C15, attempt);
    ModMul(index * 0x9E37_79B9_7F4A_7C15 + attempt, 0x517c_c1b7_2722_0a95);
  }

  /** Full jitter never leaves `[1, 2^min(attempt, 10)]`, for any fragment and any attempt: it takes
      the top bits of the hash off the power of two. The subtraction does not saturate, so the closing
      `max(1)` never has to act. */
  lemma JitteredBackoffInRange(index: nat, attempt: nat, e: Error)
    requires !(e.Throttled? && e.retryAfter.Some?)
    ensures 1 <= BackoffSecs(index, attempt, e) <= Pow2(Min(attempt, 10))
    ensures attempt > 0 ==>
              var exponent := Min(attempt, 10);
              BackoffSecs(index, attempt, e) + Hash(index, attempt) / Pow2(64 - exponent) == Pow2(exponent)
  {
    var exponent := Min(attempt, 10);
    if attempt > 0 {
      Pow2Monotone(1, exponent);
      assert Pow2(1) == 2;
      var width := 64;
      SixtyFourBits(width);
      WrappingHash(index, attempt);
      TopBitsBelow(Hash(index, attempt), 64 - exponent, exponent);
      ShiftDivides(Hash(index, attempt), 64 - exponent);
    }
  }

  /** No single wait is longer than 1024 seconds. */
  lemma BackoffAtMost1024(index: nat, attempt: nat, e: Error)
    ensures BackoffSecs(index, attempt, e) <= 1024
  {
    if !(e.Throttled? && e.retryAfter.Some?) {
      JitteredBackoffInRange(index, attempt, e);
      Pow2Monotone(Min(attempt, 10), 10);
      Pow2Add(5, 5);
      assert Pow2(5) == 32;
    }
  }

  /** One round of the retry loop, as the breaker and the attempt decide it. */
  datatype Round = BreakerOpen | Tried(outcome: Outcome)

  /** What the round comes to if it is the last one. */
  function OutcomeOf(round: Round): Outcome {
    match round
    case BreakerOpen => Outcome.Error(Retryable)
    case Tried(outcome) => outcome
  }

  /** The round ends in another round, if any are left. */
  predicate IsRetried(round: Round) {
    OutcomeOf(round).Error? && !OutcomeOf(round).error.Fatal?
  }

  predicate AllRetried(rounds: seq<Round>) {
    forall k | 0 <= k < |rounds| :: IsRetried(rounds[k])
  }

  /** The sleep behind round number `attempt` when it is retried. */
  function WaitBehind(index: nat, attempt: nat, round: Round): nat
    requires IsRetried(round)
  {
    if round.BreakerOpen? then 1 else BackoffSecs(index, attempt, round.outcome.error)
  }

  /** What the wait behind a round has to be: a second behind an open breaker; what the server asked
      for, up to 1024 seconds, if it asked; else a power of two less the top bits of the round's hash. */
  predicate WaitIsDue(index: nat, attempt: nat, round: Round, secs: nat)
    requires IsRetried(round)
  {
    if round.BreakerOpen? then secs == 1
    else if round.outcome.error.Throttled? && round.outcome.error.retryAfter.Some? then
      var asked := round.outcome.error.retryAfter.value;
      if asked <= 1024 then secs == asked else secs == 1024
    else if attempt == 0 then secs == 1
    else
      var exponent: nat := if attempt < 10 then attempt else 10;
      secs + Hash(index, attempt) / Pow2(64 - exponent) == Pow2(exponent)
  }

  /** Every wait is the one that is due, so no worker comes back before a server's `Retry-After` is
      over, unless that asks for more than 1024 seconds. */
  lemma WaitsAreDue(index: nat, attempt: nat, round: Round)
    requires IsRetried(round)
    ensures WaitIsDue(index, attempt, round, WaitBehind(index, attempt, round))
    ensures WaitBehind(index, attempt, round) <= 1024
  {
    if round.Tried? {
      BackoffAtMost1024(index, attempt, round.outcome.error);
      if !(round.outcome.error.Throttled? && round.outcome.error.retryAfter.Some?) {
        JitteredBackoffInRange(index, attempt, round.outcome.error);
      }
    }
  }

  /** Download attempts among the rounds. */
  function Tries(rounds: seq<Round>): nat {
    var n := |rounds|;
    if n == 0 then 0 else Tries(rounds[..n - 1]) + if rounds[n - 1].Tried? then 1 else 0
  }

  /** The waits behind the rounds together. */
  function Slept(index: nat, rounds: seq<Round>): nat
    requires AllRetried(rounds)
  {
    var n := |rounds|;
    if n == 0 then 0 else Slept(index, rounds[..n - 1]) + WaitBehind(index, n - 1, rounds[n - 1])
  }

  lemma OneMoreRound(index: nat, rounds: seq<Round>, round: Round)
    ensures Tries(rounds + [round]) == Tries(rounds) + if round.Tried? then 1 else 0
    ensures AllRetried(rounds) && IsRetried(round) ==>
              && AllRetried(rounds + [round])
              && Slept(index, rounds + [round]) == Slept(index, rounds) + WaitBehind(index, |rounds|, round)
  {
    assert (rounds + [round])[..|rounds|] == rounds;
  }

  function FirstRounds(rounds: nat -> Round, n: nat): (first: seq<Round>)
    ensures |first| == n && forall k | 0 <= k < n :: first[k] == rounds(k)
  {
    seq(n, k requires 0 <= k => rounds(k))
  }

  lemma RoundsBegin(index: nat, rounds: nat -> Round)
    ensures Tries(FirstRounds(rounds, 0)) == 0 && AllRetried(FirstRounds(rounds, 0))
    ensures Slept(index, FirstRounds(rounds, 0)) == 0 && Sum([]) == 0
  {
  }

  /** The retry loop of one fragment worker. It makes at most `maxRetries + 1` download
      attempts, rounds the open breaker skipped included, and sleeps behind every round it retries as
      long as that round makes it, at most 1024 seconds each; it gives up early only on an error that is
      not worth a retry. It makes an attempt in every round the breaker lets through. */
  method FragmentWorker(index: nat, maxRetries: nat, rounds: nat -> Round)
    returns (r: Outcome, attempt: nat, tries: nat, slept: nat, ghost waits: seq<nat>)
    ensures attempt <= maxRetries && tries <= attempt + 1
    ensures slept <= 1024 * attempt
    ensures AllRetried(FirstRounds(rounds, attempt))
    ensures tries == Tries(FirstRounds(rounds, attempt + 1)) && slept == Slept(index, FirstRounds(rounds, attempt))
    ensures |waits| == attempt && slept == Sum(waits)
    ensures forall k | 0 <= k < attempt :: IsRetried(rounds(k)) && WaitIsDue(index, k, rounds(k), waits[k])
    ensures r == OutcomeOf(rounds(attempt))
    ensures r.Error? ==> attempt == maxRetries || r.error.Fatal?
  {
    hide BackoffSecs, WaitIsDue, Tries, Slept, Sum;
    RoundsBegin(index, rounds);
    attempt, tries, slept, waits := 0, 0, 0, [];
    while true
      invariant attempt <= maxRetries && tries <= attempt
      invariant slept <= 1024 * attempt
      invariant AllRetried(FirstRounds(rounds, attempt))
      invariant tries == Tries(FirstRounds(rounds, attempt)) && slept == Slept(index, FirstRounds(rounds, attempt))
      invariant |waits| == attempt && slept == Sum(waits)
      invariant forall k | 0 <= k < attempt :: IsRetried(rounds(k)) && WaitIsDue(index, k, rounds(k), waits[k])
      decreases maxRetries - attempt
    {
      ghost var before := FirstRounds(rounds, attempt);
      OneMoreRound(index, before, rounds(attempt));
      assert FirstRounds(rounds, attempt + 1) == before + [rounds(attempt)];
      if IsRetried(rounds(attempt)) {
        WaitsAreDue(index, attempt, rounds(attempt));
      }
      var wait;
      match rounds(attempt) {
        case BreakerOpen =>
          if attempt >= maxRetries {
            r := Outcome.Error(Retryable);
            return;
          }
          wait := 1;
        case Tried(outcome) =>
          tries := tries + 1;
          if outcome.Done? || outcome.error.Fatal? || attempt >= maxRetries {
            r := outcome;
            return;
          }
          wait := BackoffSecs(index, attempt, outcome.error);
      }
      slept := slept + wait;
      SumNext(waits, wait);
      waits := waits + [wait];
      attempt := attempt + 1;
    }
  }
}
