/** Circuit breakers, one per download source. A breaker counts consecutive failures in 32 bits,
    opens at a threshold, and once it has been open long enough lets a single probe through. Times
    are nanoseconds of one clock. */
module CircuitBreakers {
  import opened Arithmetic
  import opened ByteStore

  datatype Settings = Settings(threshold: nat, openFor: nat)

  datatype Status = Closed | Open | HalfOpen

  datatype Breaker = Breaker(failures: nat, openedAt: Option<nat>, probeSent: bool)

  datatype Op = Ask(at: nat) | Succeed | Fail(at: nat)

  datatype Call = Call(source: string, op: Op)

  const FRESH: Breaker := Breaker(0, None, false)

  /** `Instant::elapsed` is never negative. */
  function Elapsed(since: nat, now: nat): nat {
    if now < since then 0 else now - since
  }

  function StatusAt(cfg: Settings, b: Breaker, now: nat): Status {
    if b.openedAt.None? then Closed
    else if Elapsed(b.openedAt.value, now) >= cfg.openFor then HalfOpen
    else Open
  }

  predicate Allows(cfg: Settings, b: Breaker, now: nat) {
    match StatusAt(cfg, b, now)
    case Closed => true
    case Open => false
    case HalfOpen => !b.probeSent
  }

  function Step(cfg: Settings, b: Breaker, op: Op): Breaker {
    match op
    case Ask(now) =>
      if StatusAt(cfg, b, now).HalfOpen? then b.(probeSent := true) else b
    case Succeed => FRESH
    case Fail(now) =>
      var failures := (b.failures + 1) % TWO_32;
      if failures >= cfg.threshold then Breaker(failures, Some(now), false) else b.(failures := failures)
  }

  function Run(cfg: Settings, ops: seq<Op>): Breaker {
    var n := |ops|;
    if n == 0 then FRESH else Step(cfg, Run(cfg, ops[..n - 1]), ops[n - 1])
  }

  function Lookup(table: map<string, Breaker>, source: string): Breaker {
    if source in table then table[source] else FRESH
  }

  /** Asking and failing make a source known; a success of an unknown source leaves no trace. */
  function StepTable(cfg: Settings, table: map<string, Breaker>, call: Call): map<string, Breaker> {
    if call.op.Succeed? && call.source !in table then table
    else table[call.source := Step(cfg, Lookup(table, call.source), call.op)]
  }

  function RunTable(cfg: Settings, calls: seq<Call>): map<string, Breaker> {
    var n := |calls|;
    if n == 0 then map[] else StepTable(cfg, RunTable(cfg, calls[..n - 1]), calls[n - 1])
  }

  /** The calls of one source, in order. */
  function Of(calls: seq<Call>, source: string): seq<Op> {
    var n := |calls|;
    if n == 0 then []
    else
      var init := Of(calls[..n - 1], source);
      if calls[n - 1].source == source then init + [calls[n - 1].op] else init
  }

  /** Sources do not disturb one another: after any history the breaker of a source is a single
      fresh breaker run on that source's calls alone. */
  lemma {:induction false} Projection(cfg: Settings, calls: seq<Call>, source: string)
    ensures Lookup(RunTable(cfg, calls), source) == Run(cfg, Of(calls, source))
  {
    var n := |calls|;
    if n == 0 {
    } else {
      Projection(cfg, calls[..n - 1], source);
      var init := Of(calls[..n - 1], source);
      if calls[n - 1].source == source {
        assert (init + [calls[n - 1].op])[..|init|] == init;
      }
    }
  }

  /** So does every answer it gives. */
  lemma AnswersProject(cfg: Settings, calls: seq<Call>, source: string, now: nat)
    ensures Allows(cfg, Lookup(RunTable(cfg, calls), source), now) == Allows(cfg, Run(cfg, Of(calls, source)), now)
  {
    Projection(cfg, calls, source);
  }

  /** A source has an entry exactly when it was asked for or failed. */
  lemma {:induction false} KnownIff(cfg: Settings, calls: seq<Call>, source: string)
    ensures source in RunTable(cfg, calls) <==> exists op :: op in Of(calls, source) && !op.Succeed?
  {
    var n := |calls|;
    if n == 0 {
    } else {
      KnownIff(cfg, calls[..n - 1], source);
      var init, last := Of(calls[..n - 1], source), calls[n - 1];
      if last.source == source {
        assert Of(calls, source) == init + [last.op];
        forall op | op in init
          ensures op in Of(calls, source)
        {
        }
        assert last.op in Of(calls, source);
      }
    }
  }

  // ---- When a breaker is closed ----

  function FailuresSinceSuccess(ops: seq<Op>): nat {
    var n := |ops|;
    if n == 0 then 0
    else
      match ops[n - 1]
      case Ask(_) => FailuresSinceSuccess(ops[..n - 1])
      case Succeed => 0
      case Fail(_) => FailuresSinceSuccess(ops[..n - 1]) + 1
  }

  /** The threshold in effect: a configured threshold of zero acts as one. */
  function Effective(cfg: Settings): nat {
    if cfg.threshold == 0 then 1 else cfg.threshold
  }

  /** After any history the breaker is closed exactly when fewer failures than the effective
      threshold came after the last success, even when the counter has wrapped around. */
  lemma {:induction false} ClosedIff(cfg: Settings, ops: seq<Op>)
    requires cfg.threshold < TWO_32
    ensures var b := Run(cfg, ops);
            && b.failures == FailuresSinceSuccess(ops) % TWO_32
            && (b.openedAt.None? <==> FailuresSinceSuccess(ops) < Effective(cfg))
            && (b.openedAt.None? ==> !b.probeSent)
  {
    var n := |ops|;
    if n == 0 {
    } else {
      ClosedIff(cfg, ops[..n - 1]);
      WrapNext(FailuresSinceSuccess(ops[..n - 1]));
    }
  }

  /** Counting on from the wrapped counter wraps to the same value; below 2^32 nothing wraps. */
  lemma WrapNext(n: nat)
    ensures (n % TWO_32 + 1) % TWO_32 == (n + 1) % TWO_32
    ensures n < TWO_32 ==> n % TWO_32 == n
    ensures n + 1 < TWO_32 ==> (n + 1) % TWO_32 == n + 1
  {
  }

  /** With the threshold as configured, the claim holds exactly when that is positive: a threshold of
      zero still lets a fresh source in. */
  lemma ConfiguredThresholdIff(cfg: Settings)
    requires cfg.threshold < TWO_32
    ensures (forall history :: Run(cfg, history).openedAt.None? <==> FailuresSinceSuccess(history) < cfg.threshold)
       <==> cfg.threshold > 0
  {
    if cfg.threshold > 0 {
      forall history
        ensures Run(cfg, history).openedAt.None? <==> FailuresSinceSuccess(history) < cfg.threshold
      {
        ClosedIff(cfg, history);
      }
    } else {
      assert Run(cfg, []).openedAt.None?;
      assert FailuresSinceSuccess([]) == 0;
    }
  }

  // ---- How many probes get through ----

  /** How many of the requests at `times`, made after `b`, are let through. */
  function Granted(cfg: Settings, b: Breaker, times: seq<nat>): nat {
    var n := |times|;
    if n == 0 then 0
    else Granted(cfg, b, times[..n - 1]) + (if Allows(cfg, Asked(cfg, b, times[..n - 1]), times[n - 1]) then 1 else 0)
  }

  function Asked(cfg: Settings, b: Breaker, times: seq<nat>): Breaker {
    var n := |times|;
    if n == 0 then b else Step(cfg, Asked(cfg, b, times[..n - 1]), Ask(times[n - 1]))
  }

  /** A breaker opened at `at` has been open long enough. */
  predicate IsOver(cfg: Settings, at: nat, now: nat) {
    cfg.openFor == 0 || at + cfg.openFor <= now
  }

  predicate Due(cfg: Settings, b: Breaker, times: seq<nat>) {
    b.openedAt.Some? && exists i :: 0 <= i < |times| && IsOver(cfg, b.openedAt.value, times[i])
  }

  lemma {:induction false} GrantedAtMostOne(cfg: Settings, b: Breaker, times: seq<nat>)
    requires b.openedAt.Some?
    ensures Asked(cfg, b, times) == b.(probeSent := b.probeSent || Due(cfg, b, times))
    ensures Granted(cfg, b, times) == if !b.probeSent && Due(cfg, b, times) then 1 else 0
  {
    var n := |times|;
    if n == 0 {
    } else {
      var init := times[..n - 1];
      GrantedAtMostOne(cfg, b, init);
      if Due(cfg, b, init) {
        var i :| 0 <= i < |init| && IsOver(cfg, b.openedAt.value, init[i]);
        assert times[i] == init[i];
      }
      if Due(cfg, b, times) {
        var i :| 0 <= i < |times| && IsOver(cfg, b.openedAt.value, times[i]);
        assert i == n - 1 || times[i] == init[i];
      }
    }
  }

  /** The failure that opened the breaker: the last one whose counter stood at the threshold. */
  function OpenedBy(cfg: Settings, ops: seq<Op>): Option<nat> {
    var n := |ops|;
    if n == 0 then None
    else
      match ops[n - 1]
      case Ask(_) => OpenedBy(cfg, ops[..n - 1])
      case Succeed => None
      case Fail(at) =>
        if FailuresSinceSuccess(ops) % TWO_32 >= cfg.threshold then Some(at) else OpenedBy(cfg, ops[..n - 1])
  }

  lemma {:induction false} OpenedByIsRecorded(cfg: Settings, ops: seq<Op>)
    requires cfg.threshold < TWO_32
    ensures Run(cfg, ops).openedAt == OpenedBy(cfg, ops)
  {
    var n := |ops|;
    if n == 0 {
    } else {
      OpenedByIsRecorded(cfg, ops[..n - 1]);
      ClosedIff(cfg, ops);
    }
  }

  /** A request has been let through as a probe since the failure that opened the breaker. */
  predicate ProbeOut(cfg: Settings, ops: seq<Op>) {
    var n := |ops|;
    n > 0
    && match ops[n - 1]
       case Ask(now) =>
         ProbeOut(cfg, ops[..n - 1])
         || (OpenedBy(cfg, ops[..n - 1]).Some? && IsOver(cfg, OpenedBy(cfg, ops[..n - 1]).value, now))
       case Succeed => false
       case Fail(_) => FailuresSinceSuccess(ops) % TWO_32 < cfg.threshold && ProbeOut(cfg, ops[..n - 1])
  }

  /** After any history the whole state of a breaker can be told from the history: the failures since
      the last success, the failure that opened it, and whether its probe is out. */
  lemma {:induction false} BreakerIsItsHistory(cfg: Settings, ops: seq<Op>)
    requires cfg.threshold < TWO_32
    ensures Run(cfg, ops) == Breaker(FailuresSinceSuccess(ops) % TWO_32, OpenedBy(cfg, ops), ProbeOut(cfg, ops))
  {
    var n := |ops|;
    if n == 0 {
    } else {
      BreakerIsItsHistory(cfg, ops[..n - 1]);
      ClosedIff(cfg, ops);
      OpenedByIsRecorded(cfg, ops);
    }
  }

  /** And so can its next answer: it lets a request through if and only if it is closed, or has been
      open long enough and has no probe out. */
  lemma AllowsIff(cfg: Settings, ops: seq<Op>, now: nat)
    requires cfg.threshold < TWO_32
    ensures Allows(cfg, Run(cfg, ops), now)
       <==> || FailuresSinceSuccess(ops) < Effective(cfg)
            || (OpenedBy(cfg, ops).Some? && IsOver(cfg, OpenedBy(cfg, ops).value, now) && !ProbeOut(cfg, ops))
  {
    BreakerIsItsHistory(cfg, ops);
    ClosedIff(cfg, ops);
  }

  /** Between two recorded outcomes an open breaker lets at most one request through, and none
      before it has been open for `openFor` since the failure that opened it; right after that failure
      exactly one gets through as soon as one is due. A closed breaker lets every request through. */
  lemma {:induction false} ProbesBetweenOutcomes(cfg: Settings, ops: seq<Op>, times: seq<nat>)
    requires cfg.threshold < TWO_32
    ensures var b := Run(cfg, ops);
            if FailuresSinceSuccess(ops) < Effective(cfg) then Granted(cfg, b, times) == |times|
            else
              && OpenedBy(cfg, ops).Some?
              && Granted(cfg, b, times) <= 1
              && (Granted(cfg, b, times) == 1
                  <==> !b.probeSent && exists i :: 0 <= i < |times| && IsOver(cfg, OpenedBy(cfg, ops).value, times[i]))
              && (ops[|ops| - 1].Fail? && FailuresSinceSuccess(ops) % TWO_32 >= cfg.threshold ==> !b.probeSent)
  {
    ClosedIff(cfg, ops);
    OpenedByIsRecorded(cfg, ops);
    var b := Run(cfg, ops);
    if FailuresSinceSuccess(ops) < Effective(cfg) {
      ClosedGrantsAll(cfg, b, times);
    } else {
      GrantedAtMostOne(cfg, b, times);
    }
  }

  lemma {:induction false} ClosedGrantsAll(cfg: Settings, b: Breaker, times: seq<nat>)
    requires b.openedAt.None?
    ensures Asked(cfg, b, times) == b && Granted(cfg, b, times) == |times|
  {
    if |times| == 0 {
    } else {
      ClosedGrantsAll(cfg, b, times[..|times| - 1]);
    }
  }

  // ---- The objects ----

  class CircuitBreaker {
    const cfg: Settings
    var failureCount: nat
    var openedAt: Option<nat>
    var probeSent: bool

    function Value(): Breaker
      reads this
    {
      Breaker(failureCount, openedAt, probeSent)
    }

    constructor (cfg: Settings)
      ensures this.cfg == cfg && Value() == FRESH
    {
      this.cfg := cfg;
      failureCount, openedAt, probeSent := 0, None, false;
    }

    method Allow(now: nat) returns (allowed: bool)
      modifies this
      ensures allowed == Allows(cfg, old(Value()), now)
      ensures Value() == Step(cfg, old(Value()), Ask(now))
    {
      match StatusAt(cfg, Value(), now)
      case Closed => allowed := true;
      case Open => allowed := false;
      case HalfOpen =>
        allowed := !probeSent;
        probeSent := true;
    }

    method RecordSuccess()
      modifies this
      ensures Value() == Step(cfg, old(Value()), Succeed)
    {
      failureCount := 0;
      openedAt := None;
      probeSent := false;
    }

    method RecordFailure(now: nat)
      modifies this
      ensures Value() == Step(cfg, old(Value()), Fail(now))
    {
      failureCount := (failureCount + 1) % TWO_32;
      if failureCount >= cfg.threshold {
        openedAt := Some(now);
        probeSent := false;
      }
    }
  }

  class SourceCircuitBreakers {
    const cfg: Settings
    var breakers: map<string, CircuitBreaker>
    ghost var calls: seq<Call>

    /** Every source has a breaker of its own, and the table is what the calls so far make it. */
    ghost predicate Valid()
      reads this, breakers.Values
    {
      && (forall s | s in breakers :: breakers[s].cfg == cfg)
      && (forall s, t | s in breakers && t in breakers && s != t :: breakers[s] != breakers[t])
      && Contents() == RunTable(cfg, calls)
    }

    ghost function Contents(): map<string, Breaker>
      reads this, breakers.Values
    {
      map s | s in breakers :: breakers[s].Value()
    }

    constructor (cfg: Settings)
      ensures Valid() && calls == [] && this.cfg == cfg && breakers == map[]
    {
      this.cfg := cfg;
      breakers := map[];
      calls := [];
    }

    method Entry(source: string) returns (b: CircuitBreaker)
      requires Valid()
      modifies this`breakers
      ensures source in breakers && breakers[source] == b && b.cfg == cfg
      ensures breakers == old(breakers)[source := b] && (b in old(breakers.Values) || fresh(b))
      ensures source in old(breakers) ==> b == old(breakers)[source]
      ensures source !in old(breakers) ==> fresh(b) && b.Value() == FRESH
    {
      if source in breakers {
        b := breakers[source];
      } else {
        b := new CircuitBreaker(cfg);
        breakers := breakers[source := b];
      }
    }

    /** Each call answers as a breaker would that had only ever seen its source's calls. */
    method Allow(source: string, now: nat) returns (allowed: bool)
      requires Valid()
      modifies this, breakers.Values
      ensures Valid() && calls == old(calls) + [Call(source, Ask(now))]
      ensures allowed == Allows(cfg, Run(cfg, Of(old(calls), source)), now)
    {
      hide Run, RunTable, Of, Step, Allows, StatusAt;
      Projection(cfg, calls, source);
      TableSnoc(cfg, calls, Call(source, Ask(now)));
      ghost var before := Contents();
      var b := Entry(source);
      assert b.Value() == Lookup(before, source);
      allowed := b.Allow(now);
      calls := calls + [Call(source, Ask(now))];
      assert Contents() == StepTable(cfg, before, Call(source, Ask(now)));
    }

    method RecordSuccess(source: string)
      requires Valid()
      modifies this, breakers.Values
      ensures Valid() && calls == old(calls) + [Call(source, Succeed)]
    {
      hide Run, RunTable, Of, Step, Allows, StatusAt;
      TableSnoc(cfg, calls, Call(source, Succeed));
      ghost var before := Contents();
      if source in breakers {
        breakers[source].RecordSuccess();
      }
      calls := calls + [Call(source, Succeed)];
      assert Contents() == StepTable(cfg, before, Call(source, Succeed));
    }

    method RecordFailure(source: string, now: nat)
      requires Valid()
      modifies this, breakers.Values
      ensures Valid() && calls == old(calls) + [Call(source, Fail(now))]
    {
      hide Run, RunTable, Of, Step, Allows, StatusAt;
      TableSnoc(cfg, calls, Call(source, Fail(now)));
      ghost var before := Contents();
      var b := Entry(source);
      b.RecordFailure(now);
      calls := calls + [Call(source, Fail(now))];
      assert Contents() == StepTable(cfg, before, Call(source, Fail(now)));
    }
  }

  lemma TableSnoc(cfg: Settings, calls: seq<Call>, call: Call)
    ensures RunTable(cfg, calls + [call]) == StepTable(cfg, RunTable(cfg, calls), call)
  {
    assert (calls + [call])[..|calls|] == calls;
  }
}
