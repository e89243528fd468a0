/** The lock-free debt rate limiter. An `acquire` loads the rate, adds its bytes to the debt,
    reads the clock, loads the baseline and sleeps off its deficit; other calls may run between
    any two of these. Times are nanoseconds since the anchor, amounts are bytes. */
module RateLimiter {
  import opened Arithmetic

  const NANOS: nat := 1_000_000_000
  const MAX_WAIT_NS: nat := 5_000_000_000

  /** `now.saturating_sub(baseline) as u64`: a negative difference wraps around. */
  function Elapsed(now: int, baseline: int): nat {
    (now - baseline) % TWO_64
  }

  function Allowed(elapsed: nat, rate: nat): nat {
    elapsed * rate / NANOS % TWO_64
  }

  /** The wait that would pay the deficit off. */
  function FullWait(total: nat, allowed: nat, rate: nat): nat
    requires rate > 0
  {
    if total > allowed then (total - allowed) * NANOS / rate else 0
  }

  /** The wait actually made: truncated to 64 bits, then clamped to five seconds. */
  function SleepNs(wait: nat): nat {
    Min(wait % TWO_64, MAX_WAIT_NS)
  }

  /** The rate earns the total, give or take one nanosecond, by the end of the longest wait there is:
      what a caller can look up before it waits. */
  predicate Affordable(total: nat, rate: nat, baseline: int, now: int) {
    total * NANOS < rate * (now - baseline + MAX_WAIT_NS + 1)
  }

  datatype Phase =
    | Free                                      // rate 0 or no bytes: nothing to wait for
    | Loaded
    | Charged(total: nat)
    | Clocked(total: nat, readAt: int)
    | Waiting(total: nat, deadline: int, over: bool)
    | Returned(total: nat, over: bool)

  /** `over` says that the call was not within its means when it decided how long to wait. */
  datatype Call = Call(bytes: nat, rate: nat, epoch: nat, phase: Phase)

  /** An epoch lasts from one `update_rate` to the next; `debt0` is the debt it began with. */
  datatype State = State(baseline: int, debt: nat, rate: nat, now: int, epoch: nat, debt0: nat, calls: seq<Call>)

  datatype Event =
    | Begin(bytes: nat)
    | Charge(i: nat)
    | ReadClock(i: nat)
    | Decide(i: nat)
    | Return(i: nat)
    | Tick(ns: nat)
    | Update(rate: nat)

  function New(rate: nat): State {
    State(-1_000_000_000, 0, rate, 0, 0, 0, [])
  }

  function StepCall(s: State, i: nat, e: Event): State
    requires i < |s.calls|
  {
    var c := s.calls[i];
    match (e, c.phase)
    case (Charge(_), Loaded) =>
      s.(debt := s.debt + c.bytes, calls := s.calls[i := c.(phase := Charged(s.debt + c.bytes))])
    case (ReadClock(_), Charged(total)) =>
      s.(calls := s.calls[i := c.(phase := Clocked(total, s.now))])
    case (Decide(_), Clocked(total, readAt)) =>
      if c.rate == 0 then s
      else
        var wait := FullWait(total, Allowed(Elapsed(readAt, s.baseline), c.rate), c.rate);
        var over := wait >= TWO_64 || !Affordable(total, c.rate, s.baseline, s.now);
        s.(calls := s.calls[i := c.(phase := Waiting(total, s.now + SleepNs(wait), over))])
    case (Return(_), Waiting(total, deadline, over)) =>
      if deadline <= s.now then s.(calls := s.calls[i := c.(phase := Returned(total, over))]) else s
    case _ => s
  }

  /** `update_rate`, taken as one step. */
  function StepUpdate(s: State, rate: nat): State {
    if rate == 0 then s.(rate := 0, epoch := s.epoch + 1, debt0 := s.debt)
    else
      var used := if s.rate == 0 then 0 else Allowed(Elapsed(s.now, s.baseline), s.rate);
      s.(baseline := s.now, debt := used, debt0 := used, rate := rate, epoch := s.epoch + 1)
  }

  function Step(s: State, e: Event): State {
    match e
    case Begin(bytes) =>
      var phase := if s.rate == 0 || bytes == 0 then Free else Loaded;
      s.(calls := s.calls + [Call(bytes, s.rate, s.epoch, phase)])
    case Tick(ns) => s.(now := s.now + ns)
    case Update(rate) => StepUpdate(s, rate)
    case _ => if e.i < |s.calls| then StepCall(s, e.i, e) else s
  }

  function Run(s: State, events: seq<Event>): State
    decreases |events|
  {
    if |events| == 0 then s else Step(Run(s, events[..|events| - 1]), events[|events| - 1])
  }

  // ----- Counting admitted bytes -----

  predicate HasTotal(p: Phase) {
    !p.Free? && !p.Loaded?
  }

  /** The bytes the call takes from the debt interval up to `m`, if it belongs to the epoch. */
  function Weight(c: Call, epoch: nat, m: nat): nat {
    if c.epoch == epoch && HasTotal(c.phase) && c.phase.total <= m then c.bytes else 0
  }

  function SumUpTo(calls: seq<Call>, epoch: nat, m: nat): nat
    decreases |calls|
  {
    if |calls| == 0 then 0
    else SumUpTo(calls[..|calls| - 1], epoch, m) + Weight(calls[|calls| - 1], epoch, m)
  }

  /** The bytes of the epoch's calls that have returned. */
  function Admitted(calls: seq<Call>, epoch: nat): nat
    decreases |calls|
  {
    if |calls| == 0 then 0
    else
      var c := calls[|calls| - 1];
      Admitted(calls[..|calls| - 1], epoch) + if c.epoch == epoch && c.phase.Returned? then c.bytes else 0
  }

  lemma {:induction false} SumSet(calls: seq<Call>, i: nat, c: Call, epoch: nat, m: nat)
    requires i < |calls|
    ensures SumUpTo(calls[i := c], epoch, m) + Weight(calls[i], epoch, m) == SumUpTo(calls, epoch, m) + Weight(c, epoch, m)
    decreases |calls|
  {
    var last := |calls| - 1;
    if i == last {
      assert calls[i := c][..last] == calls[..last];
    } else {
      assert calls[i := c][..last] == calls[..last][i := c];
      SumSet(calls[..last], i, c, epoch, m);
    }
  }

  lemma SumAppend(calls: seq<Call>, c: Call, epoch: nat, m: nat)
    ensures SumUpTo(calls + [c], epoch, m) == SumUpTo(calls, epoch, m) + Weight(c, epoch, m)
  {
    assert (calls + [c])[..|calls|] == calls;
  }

  lemma {:induction false} SumOfOtherEpochs(calls: seq<Call>, epoch: nat, m: nat)
    requires forall k | 0 <= k < |calls| :: calls[k].epoch != epoch
    ensures SumUpTo(calls, epoch, m) == 0
    decreases |calls|
  {
    if |calls| == 0 {
    } else {
      SumOfOtherEpochs(calls[..|calls| - 1], epoch, m);
    }
  }

  lemma {:induction false} SumMonotone(calls: seq<Call>, epoch: nat, m: nat, debt: nat)
    requires forall k | 0 <= k < |calls| :: calls[k].epoch == epoch && HasTotal(calls[k].phase) ==> calls[k].phase.total <= debt
    requires debt <= m
    ensures SumUpTo(calls, epoch, m) == SumUpTo(calls, epoch, debt)
    decreases |calls|
  {
    if |calls| == 0 {
    } else {
      SumMonotone(calls[..|calls| - 1], epoch, m, debt);
    }
  }

  /** Returned calls are charged calls, so their bytes fit below any bound on their totals. */
  lemma {:induction false} AdmittedBelow(calls: seq<Call>, epoch: nat, m: nat)
    requires forall k | 0 <= k < |calls| :: calls[k].epoch == epoch && calls[k].phase.Returned? ==> calls[k].phase.total <= m
    ensures Admitted(calls, epoch) <= SumUpTo(calls, epoch, m)
    decreases |calls|
  {
    if |calls| == 0 {
    } else {
      AdmittedBelow(calls[..|calls| - 1], epoch, m);
    }
  }

  // ----- The invariant -----

  /** What the debt counter guarantees about a call: its total fits into the rate's budget up to
      time `t`, give or take one nanosecond. */
  predicate WithinBudget(total: nat, rate: nat, baseline: int, t: int) {
    total * NANOS < rate * (t - baseline + 1)
  }

  predicate CallInv(c: Call, rate: nat, baseline: int, now: int, debt: nat) {
    && c.rate == rate
    && (c.phase.Free? ==> c.rate == 0 || c.bytes == 0)
    && (!c.phase.Free? ==> rate > 0 && c.bytes > 0)
    && (HasTotal(c.phase) ==> c.phase.total <= debt)
    && (c.phase.Clocked? ==> baseline <= c.phase.readAt <= now)
    && (c.phase.Waiting? ==> c.phase.deadline <= now + MAX_WAIT_NS)
    && (c.phase.Waiting? && !c.phase.over ==> WithinBudget(c.phase.total, rate, baseline, c.phase.deadline))
    && (c.phase.Returned? && !c.phase.over ==> WithinBudget(c.phase.total, rate, baseline, now))
  }

  /** The epoch's calls take disjoint intervals of the debt: up to any level `m` they hold no more
      bytes than there are between the epoch's first debt and `m`. */
  ghost predicate DebtCovers(calls: seq<Call>, epoch: nat, debt0: nat) {
    forall m: nat | debt0 <= m :: debt0 + SumUpTo(calls, epoch, m) <= m
  }

  ghost predicate Inv(s: State) {
    && s.baseline <= s.now && s.debt0 <= s.debt
    && (forall k | 0 <= k < |s.calls| :: s.calls[k].epoch <= s.epoch)
    && (forall k | 0 <= k < |s.calls| :: s.calls[k].epoch == s.epoch ==>
          CallInv(s.calls[k], s.rate, s.baseline, s.now, s.debt))
    && DebtCovers(s.calls, s.epoch, s.debt0)
  }

  lemma ModAtMost(x: nat, m: nat)
    requires m > 0
    ensures x % m <= x
  {
  }

  lemma AllowedAtMost(elapsed: nat, rate: nat)
    ensures Allowed(elapsed, rate) * NANOS <= elapsed * rate
  {
    ModAtMost(elapsed * rate / NANOS, TWO_64);
  }

  lemma DivUpper(n: nat, d: nat)
    requires d > 0
    ensures n < d * (n / d + 1)
  {
    assert d * (n / d + 1) == d * (n / d) + d;
  }

  lemma Distribute(rate: nat, x: nat, y: nat)
    ensures rate * (x + y) == x * rate + rate * y
  {
  }

  /** A call that waits its deficit out is within budget when its wait is over; the two roundings,
      of the allowance and of the wait, cost less than a nanosecond together. */
  lemma WaitPaysOff(total: nat, rate: nat, baseline: int, readAt: int, now: int)
    requires rate > 0 && baseline <= readAt <= now
    requires FullWait(total, Allowed(Elapsed(readAt, baseline), rate), rate) <= MAX_WAIT_NS
    ensures var wait := FullWait(total, Allowed(Elapsed(readAt, baseline), rate), rate);
            WithinBudget(total, rate, baseline, now + SleepNs(wait))
  {
    var elapsed: nat, span: nat := Elapsed(readAt, baseline), now - baseline;
    var allowed := Allowed(elapsed, rate);
    var wait := FullWait(total, allowed, rate);
    ModAtMost(readAt - baseline, TWO_64);
    AllowedAtMost(elapsed, rate);
    MulMonotone(elapsed, span, rate);
    assert allowed * NANOS <= span * rate;
    hide Allowed, Elapsed;
    if total > allowed {
      DivUpper((total - allowed) * NANOS, rate);
    } else {
      MulMonotone(1, wait + 1, rate);
    }
    assert total * NANOS < span * rate + rate * (wait + 1);
    Distribute(rate, span, wait + 1);
    assert SleepNs(wait) == wait;
    assert now + wait - baseline + 1 == span + (wait + 1);
  }

  /** And no call waits for more than it owes: when its full wait is over the rate has earned less
      than one byte beyond its total. Only sums that outgrow 64 bits are excluded. */
  lemma WaitIsNotLonger(total: nat, rate: nat, baseline: int, readAt: int)
    requires rate > 0 && baseline <= readAt
    requires readAt - baseline < TWO_64 && (readAt - baseline) * rate / NANOS < TWO_64
    ensures var wait := FullWait(total, Allowed(Elapsed(readAt, baseline), rate), rate);
            if total * NANOS <= (readAt - baseline) * rate then wait == 0
            else (readAt - baseline + wait) * rate < (total + 1) * NANOS
  {
    var elapsed: nat := readAt - baseline;
    var allowed := elapsed * rate / NANOS;
    assert Elapsed(readAt, baseline) == elapsed && Allowed(elapsed, rate) == allowed;
    hide Allowed, Elapsed;
    DivUpper(elapsed * rate, NANOS);
    DivLower(elapsed * rate, NANOS);
    if total > allowed {
      var wait := (total - allowed) * NANOS / rate;
      DivLower((total - allowed) * NANOS, rate);
      Distribute(rate, elapsed, wait);
    }
  }

  lemma BudgetGrows(total: nat, rate: nat, baseline: int, t: int, u: int)
    requires WithinBudget(total, rate, baseline, t) && t <= u
    ensures WithinBudget(total, rate, baseline, u)
  {
    if t - baseline + 1 >= 0 {
      MulMonotone(t - baseline + 1, u - baseline + 1, rate);
    } else {
      NegativeProduct(rate, t - baseline + 1);
    }
  }

  lemma NegativeProduct(rate: nat, x: int)
    requires x < 0
    ensures rate * x <= 0
  {
  }

  /** When its wait is over, cut short by the clamp or not, a call is within budget exactly if it was
      within its means when it decided. */
  lemma {:induction false} ClampIsTheCondition(total: nat, rate: nat, baseline: int, readAt: int, now: int)
    requires rate > 0 && baseline <= readAt <= now
    requires FullWait(total, Allowed(Elapsed(readAt, baseline), rate), rate) < TWO_64
    ensures var wait := FullWait(total, Allowed(Elapsed(readAt, baseline), rate), rate);
            WithinBudget(total, rate, baseline, now + SleepNs(wait)) <==> Affordable(total, rate, baseline, now)
  {
    hide FullWait, Allowed, Elapsed;
    var wait := FullWait(total, Allowed(Elapsed(readAt, baseline), rate), rate);
    if wait <= MAX_WAIT_NS {
      WaitPaysOff(total, rate, baseline, readAt, now);
      BudgetGrows(total, rate, baseline, now + wait, now + MAX_WAIT_NS);
    }
  }

  lemma LaterCallInv(c: Call, rate: nat, baseline: int, now: int, later: int, debt: nat, debt': nat)
    requires CallInv(c, rate, baseline, now, debt) && now <= later && debt <= debt'
    ensures CallInv(c, rate, baseline, later, debt')
  {
    if c.phase.Returned? && !c.phase.over {
      BudgetGrows(c.phase.total, rate, baseline, now, later);
    }
  }

  /** A call's own step keeps the invariant of this call. */
  lemma {:induction false} StepCallInv(s: State, i: nat, e: Event)
    requires i < |s.calls| && s.baseline <= s.now
    requires CallInv(s.calls[i], s.rate, s.baseline, s.now, s.debt)
    ensures var s' := StepCall(s, i, e); CallInv(s'.calls[i], s.rate, s.baseline, s.now, s'.debt)
  {
    var c := s.calls[i];
    hide WithinBudget, Affordable, FullWait, Allowed, Elapsed, SleepNs;
    if e.Decide? && c.phase.Clocked? {
      if FullWait(c.phase.total, Allowed(Elapsed(c.phase.readAt, s.baseline), c.rate), c.rate) < TWO_64 {
        ClampIsTheCondition(c.phase.total, c.rate, s.baseline, c.phase.readAt, s.now);
      }
    } else if e.Return? && c.phase.Waiting? && c.phase.deadline <= s.now && !c.phase.over {
      BudgetGrows(c.phase.total, s.rate, s.baseline, c.phase.deadline, s.now);
    }
  }

  /** Charging a call takes the next free interval of the debt. */
  lemma ChargeKeepsCover(s: State, i: nat)
    requires Inv(s) && i < |s.calls| && s.calls[i].phase.Loaded?
    ensures var s' := StepCall(s, i, Charge(i)); DebtCovers(s'.calls, s.epoch, s.debt0)
  {
    hide CallInv;
    var c, s' := s.calls[i], StepCall(s, i, Charge(i));
    forall m: nat | s.debt0 <= m
      ensures s.debt0 + SumUpTo(s'.calls, s.epoch, m) <= m
    {
      SumSet(s.calls, i, s'.calls[i], s.epoch, m);
      if s.debt <= m {
        TotalsBelowDebt(s);
        SumMonotone(s.calls, s.epoch, m, s.debt);
        assert s.debt0 + SumUpTo(s.calls, s.epoch, s.debt) <= s.debt;
      }
      assert s.debt0 + SumUpTo(s.calls, s.epoch, m) <= m;
    }
  }

  lemma TotalsBelowDebt(s: State)
    requires Inv(s)
    ensures forall k | 0 <= k < |s.calls| ::
              s.calls[k].epoch == s.epoch && HasTotal(s.calls[k].phase) ==> s.calls[k].phase.total <= s.debt
  {
  }

  lemma CallStepKeepsInv(s: State, i: nat, e: Event)
    requires Inv(s) && i < |s.calls|
    ensures Inv(StepCall(s, i, e))
  {
    hide CallInv;
    var s' := StepCall(s, i, e);
    if s.calls[i].epoch == s.epoch {
      StepCallInv(s, i, e);
    }
    forall k | 0 <= k < |s.calls| && s.calls[k].epoch == s.epoch
      ensures CallInv(s'.calls[k], s.rate, s.baseline, s.now, s'.debt)
    {
      if k != i {
        LaterCallInv(s.calls[k], s.rate, s.baseline, s.now, s.now, s.debt, s'.debt);
      }
    }
    if e.Charge? && s.calls[i].phase.Loaded? {
      ChargeKeepsCover(s, i);
      assert s' == StepCall(s, i, Charge(i));
    } else {
      forall m: nat | s.debt0 <= m
        ensures s.debt0 + SumUpTo(s'.calls, s.epoch, m) <= m
      {
        assert s'.calls == s.calls[i := s'.calls[i]];
        SumSet(s.calls, i, s'.calls[i], s.epoch, m);
        assert s.debt0 + SumUpTo(s.calls, s.epoch, m) <= m;
      }
    }
  }

  lemma StepKeepsInv(s: State, e: Event)
    requires Inv(s)
    ensures Inv(Step(s, e))
  {
    hide CallInv, StepCall, Allowed, Elapsed;
    var s' := Step(s, e);
    match e
    case Begin(bytes) =>
      var c := s'.calls[|s.calls|];
      assert CallInv(c, s.rate, s.baseline, s.now, s.debt) by { FreshCallInv(s, bytes); }
      forall m: nat | s.debt0 <= m
        ensures s.debt0 + SumUpTo(s'.calls, s.epoch, m) <= m
      {
        SumAppend(s.calls, c, s.epoch, m);
        assert s.debt0 + SumUpTo(s.calls, s.epoch, m) <= m;
      }
    case Tick(ns) =>
      forall k | 0 <= k < |s.calls| && s.calls[k].epoch == s.epoch
        ensures CallInv(s.calls[k], s.rate, s.baseline, s'.now, s.debt)
      {
        LaterCallInv(s.calls[k], s.rate, s.baseline, s.now, s'.now, s.debt, s.debt);
      }
    case Update(rate) =>
      forall m: nat | s'.debt0 <= m
        ensures s'.debt0 + SumUpTo(s'.calls, s'.epoch, m) <= m
      {
        SumOfOtherEpochs(s.calls, s'.epoch, m);
      }
    case _ =>
      if e.i < |s.calls| {
        CallStepKeepsInv(s, e.i, e);
      }
  }

  lemma FreshCallInv(s: State, bytes: nat)
    ensures var s' := Step(s, Begin(bytes)); CallInv(s'.calls[|s.calls|], s.rate, s.baseline, s.now, s.debt)
  {
  }

  lemma {:induction false} RunKeepsInv(s: State, events: seq<Event>)
    requires Inv(s)
    ensures Inv(Run(s, events))
    decreases |events|
  {
    if |events| == 0 {
    } else {
      RunKeepsInv(s, events[..|events| - 1]);
      StepKeepsInv(Run(s, events[..|events| - 1]), events[|events| - 1]);
    }
  }

  lemma NewInv(rate: nat)
    ensures Inv(New(rate))
  {
  }

  // ----- The bounds -----

  /** Every call of the current epoch that has returned was within its means when it decided. */
  predicate WithinMeans(s: State) {
    forall k | 0 <= k < |s.calls| && s.calls[k].epoch == s.epoch && s.calls[k].phase.Returned? :: !s.calls[k].phase.over
  }

  /** In every reachable state, what the current epoch has admitted is bounded by the current rate
      over the time since the baseline, plus one nanosecond. */
  lemma EpochBound(s: State)
    requires Inv(s) && WithinMeans(s) && s.rate > 0
    ensures Admitted(s.calls, s.epoch) * NANOS <= s.rate * (s.now - s.baseline + 1)
  {
    hide DebtCovers;
    var budget := s.rate * (s.now - s.baseline + 1);
    var m := budget / NANOS;
    forall k | 0 <= k < |s.calls| && s.calls[k].epoch == s.epoch && s.calls[k].phase.Returned?
      ensures s.calls[k].phase.total <= m
    {
      assert CallInv(s.calls[k], s.rate, s.baseline, s.now, s.debt);
      assert s.calls[k].phase.total * NANOS < budget;
    }
    AdmittedBelow(s.calls, s.epoch, m);
    CoverBelow(s, m);
    assert Admitted(s.calls, s.epoch) <= m;
  }

  lemma CoverBelow(s: State, m: nat)
    requires Inv(s)
    ensures SumUpTo(s.calls, s.epoch, m) <= m
  {
    if m < s.debt0 {
      SumGrows(s.calls, s.epoch, m, s.debt0);
      assert s.debt0 + SumUpTo(s.calls, s.epoch, s.debt0) <= s.debt0;
    } else {
      assert s.debt0 + SumUpTo(s.calls, s.epoch, m) <= m;
    }
  }

  lemma {:induction false} SumGrows(calls: seq<Call>, epoch: nat, m: nat, n: nat)
    requires m <= n
    ensures SumUpTo(calls, epoch, m) <= SumUpTo(calls, epoch, n)
    decreases |calls|
  {
    if |calls| == 0 {
    } else {
      SumGrows(calls[..|calls| - 1], epoch, m, n);
    }
  }

  predicate NoUpdate(events: seq<Event>) {
    forall e | e in events :: !e.Update?
  }

  lemma {:induction false} EpochStays(s: State, events: seq<Event>)
    requires NoUpdate(events)
    ensures var s' := Run(s, events); s'.epoch == s.epoch && s'.rate == s.rate && s'.baseline == s.baseline
    decreases |events|
  {
    if |events| == 0 {
    } else {
      assert events[|events| - 1] in events;
      EpochStays(s, events[..|events| - 1]);
    }
  }

  /** At a fixed rate, the calls that have returned by time T have been given at most
      `rate * (T + 1 s + 1 ns)` bytes, in every interleaving. */
  lemma FixedRateBound(rate: nat, events: seq<Event>)
    requires rate > 0 && NoUpdate(events) && WithinMeans(Run(New(rate), events))
    ensures var s := Run(New(rate), events);
            Admitted(s.calls, 0) * NANOS <= rate * (s.now + NANOS + 1)
  {
    NewInv(rate);
    RunKeepsInv(New(rate), events);
    EpochStays(New(rate), events);
    EpochBound(Run(New(rate), events));
  }

  /** A change of the rate never reopens the initial one-second burst: the calls that start after
      it are given at most the new rate's bytes for the time since, whatever came before. */
  lemma NoBurstAfterUpdate(rate0: nat, before: seq<Event>, rate: nat, after: seq<Event>)
    requires rate > 0 && NoUpdate(after)
    requires WithinMeans(Run(Step(Run(New(rate0), before), Update(rate)), after))
    ensures var updated := Step(Run(New(rate0), before), Update(rate));
            var s := Run(updated, after);
            && Admitted(s.calls, updated.epoch) * NANOS <= rate * (s.now - updated.now + 1)
  {
    hide Run, Inv, WithinMeans, Step, Admitted;
    var b := Run(New(rate0), before);
    NewInv(rate0);
    RunKeepsInv(New(rate0), before);
    StepKeepsInv(b, Update(rate));
    UpdateSetsBaseline(b, rate);
    var updated := Step(b, Update(rate));
    RunKeepsInv(updated, after);
    EpochStays(updated, after);
    EpochBound(Run(updated, after));
  }

  lemma UpdateSetsBaseline(s: State, rate: nat)
    requires rate > 0
    ensures var s' := Step(s, Update(rate)); s'.baseline == s'.now && s'.rate == rate
  {
  }

  // ----- Who waits, and for how long -----

  /** In every reachable state a call of the current epoch is free of any wait exactly if the limiter
      does not limit, or the call asks for nothing. */
  lemma FreeIff(rate: nat, events: seq<Event>, k: nat)
    requires var s := Run(New(rate), events); k < |s.calls| && s.calls[k].epoch == s.epoch
    ensures var s := Run(New(rate), events); s.calls[k].phase.Free? <==> s.rate == 0 || s.calls[k].bytes == 0
  {
    NewInv(rate);
    RunKeepsInv(New(rate), events);
    var s := Run(New(rate), events);
    assert CallInv(s.calls[k], s.rate, s.baseline, s.now, s.debt);
  }

  /** Switching the limit off switches it off: no call that starts later waits for anything. */
  lemma NoLimitNoWait(rate: nat, before: seq<Event>, after: seq<Event>, k: nat)
    requires NoUpdate(after)
    requires var s := Run(Step(Run(New(rate), before), Update(0)), after); k < |s.calls| && s.calls[k].epoch == s.epoch
    ensures Run(Step(Run(New(rate), before), Update(0)), after).calls[k].phase.Free?
  {
    NewInv(rate);
    RunKeepsInv(New(rate), before);
    var updated := Step(Run(New(rate), before), Update(0));
    StepKeepsInv(Run(New(rate), before), Update(0));
    RunKeepsInv(updated, after);
    EpochStays(updated, after);
    var s := Run(updated, after);
    assert CallInv(s.calls[k], s.rate, s.baseline, s.now, s.debt);
  }

  lemma {:induction false} RunFive(s: State, a: Event, b: Event, c: Event, d: Event, e: Event)
    ensures Run(s, [a, b, c, d, e]) == Step(Step(Step(Step(Step(s, a), b), c), d), e)
  {
    RunFour(s, a, b, c, d);
    assert [a, b, c, d, e][..4] == [a, b, c, d];
  }

  /** Wherever a call that is not free has got to, its own remaining steps and five seconds are
      enough for it to return. */
  lemma EveryCallReturns(rate: nat, events: seq<Event>, k: nat)
    requires var s := Run(New(rate), events);
             k < |s.calls| && s.calls[k].epoch == s.epoch && !s.calls[k].phase.Free?
    ensures var r := Run(Run(New(rate), events), [Charge(k), ReadClock(k), Decide(k), Tick(5_000_000_000), Return(k)]);
            |r.calls| > k && r.calls[k].phase.Returned? && r.calls[k].bytes == Run(New(rate), events).calls[k].bytes
  {
    hide Inv, CallInv, Affordable, FullWait, Allowed, Elapsed, SleepNs;
    NewInv(rate);
    RunKeepsInv(New(rate), events);
    var s := Run(New(rate), events);
    WaitInBounds(s, k);
    RunFive(s, Charge(k), ReadClock(k), Decide(k), Tick(MAX_WAIT_NS), Return(k));
    hide Run;
    var s2 := Step(Step(s, Charge(k)), ReadClock(k));
    assert s2.calls[k].rate > 0 && s2.now == s.now;
    if s2.calls[k].phase.Clocked? {
      ShortSleep(s2, k);
    }
  }

  lemma WaitInBounds(s: State, k: nat)
    requires Inv(s) && k < |s.calls| && s.calls[k].epoch == s.epoch && !s.calls[k].phase.Free?
    ensures s.calls[k].rate > 0
    ensures s.calls[k].phase.Waiting? ==> s.calls[k].phase.deadline <= s.now + MAX_WAIT_NS
  {
    assert CallInv(s.calls[k], s.rate, s.baseline, s.now, s.debt);
  }

  lemma ShortSleep(s: State, k: nat)
    requires k < |s.calls| && s.calls[k].phase.Clocked? && s.calls[k].rate > 0
    ensures var p := Step(s, Decide(k)).calls[k].phase; p.Waiting? && p.deadline <= s.now + MAX_WAIT_NS
  {
  }

  // ----- What an update leaves behind -----

  /** What the old rate has earned since the baseline; nothing while there was no limit. */
  function Earned(s: State): nat {
    if s.now < s.baseline then 0 else (s.now - s.baseline) * s.rate / NANOS
  }

  /** None of the sums outgrows 64 bits. */
  predicate Fits64(s: State) {
    0 <= s.now - s.baseline < TWO_64 && Earned(s) < TWO_64
  }

  lemma EarnedIsAllowed(s: State)
    requires Fits64(s)
    ensures Allowed(Elapsed(s.now, s.baseline), s.rate) == Earned(s)
  {
  }

  /** A new call, up to its wait. */
  function Fresh(s: State, bytes: nat): State {
    Run(s, [Begin(bytes), Charge(|s.calls|), ReadClock(|s.calls|), Decide(|s.calls|)])
  }

  lemma {:induction false} FreshCallWaits(s: State, bytes: nat)
    requires s.rate > 0 && bytes > 0
    ensures var r, i := Fresh(s, bytes), |s.calls|;
            && |r.calls| == i + 1 && r.baseline == s.baseline && r.now == s.now && r.calls[i].phase.Waiting?
            && r.calls[i].phase.total == s.debt + bytes
            && r.calls[i].phase.deadline
               == s.now + SleepNs(FullWait(s.debt + bytes, Allowed(Elapsed(s.now, s.baseline), s.rate), s.rate))
  {
    hide Run, Allowed, Elapsed, FullWait, SleepNs, Affordable;
    var i := |s.calls|;
    RunFour(s, Begin(bytes), Charge(i), ReadClock(i), Decide(i));
  }

  /** The first call after an update owes what the old rate had earned as well as its own bytes, and
      is let go, unless the clamp cuts its wait short, once the new rate has earned both since the update,
      and not later than that. */
  lemma {:induction false} FirstCallAfterUpdate(s: State, rate: nat, ns: nat, bytes: nat)
    requires rate > 0 && bytes > 0 && Fits64(s)
    requires ns < TWO_64 && ns * rate / NANOS < TWO_64
    ensures var i, r := |s.calls|, Fresh(Step(Step(s, Update(rate)), Tick(ns)), bytes);
            && |r.calls| == i + 1 && r.calls[i].phase.Waiting?
            && var total, wait := Earned(s) + bytes, r.calls[i].phase.deadline - (s.now + ns);
               && r.calls[i].phase.total == total
               && 0 <= wait <= 5_000_000_000
               && (wait < 5_000_000_000 && total * NANOS / rate < TWO_64 ==>
                     total * NANOS < rate * (ns + wait + 1)
                     && (wait > 0 ==> (ns + wait) * rate < (total + 1) * NANOS))
  {
    hide Run;
    EarnedIsAllowed(s);
    var u := Step(Step(s, Update(rate)), Tick(ns));
    assert u.debt == Earned(s) && u.baseline == s.now && u.now == s.now + ns;
    FreshCallWaits(u, bytes);
    var total := u.debt + bytes;
    hide Allowed, Elapsed;
    var wait := FullWait(total, Allowed(Elapsed(u.now, u.baseline), rate), rate);
    WaitIsNotLonger(total, rate, u.baseline, u.now);
    FullWaitAtMost(total, Allowed(Elapsed(u.now, u.baseline), rate), rate);
    hide FullWait;
    if SleepNs(wait) < MAX_WAIT_NS && total * NANOS / rate < TWO_64 {
      WaitPaysOff(total, rate, u.baseline, u.now, u.now);
    }
  }

  lemma {:induction false} FullWaitAtMost(total: nat, allowed: nat, rate: nat)
    requires rate > 0
    ensures FullWait(total, allowed, rate) <= total * NANOS / rate
    ensures total * NANOS / rate < TWO_64 ==> FullWait(total, allowed, rate) % TWO_64 == FullWait(total, allowed, rate)
  {
    if total > allowed {
      DivMonotone((total - allowed) * NANOS, total * NANOS, rate);
    }
  }

  lemma {:induction false} DivMonotone(a: nat, b: nat, d: nat)
    requires a <= b && d > 0
    ensures a / d <= b / d
  {
    DivLower(a, d);
    DivUpper(b, d);
    if a / d > b / d {
      MulMonotone(b / d + 1, a / d, d);
    }
  }

  /** What a call of so many bytes would owe if it came now. */
  function Owes(s: State, bytes: nat): nat {
    if s.debt + bytes > Earned(s) then s.debt + bytes - Earned(s) else 0
  }

  /** The update is documented to keep the limiting continuous, but it keeps the earnings and drops the
      debt: an update to the very same rate leaves what a call owes as it was exactly if the debt happens to
      be twice the earnings. */
  lemma {:induction false} UpdateIsContinuousIff(s: State, bytes: nat)
    requires s.rate > 0 && bytes > 0 && Fits64(s)
    ensures Owes(Step(s, Update(s.rate)), bytes) == Owes(s, bytes) <==> s.debt == 2 * Earned(s)
    ensures Owes(Step(s, Update(s.rate)), bytes) == Earned(s) + bytes
  {
    EarnedIsAllowed(s);
    hide Allowed, Elapsed;
    var u := Step(s, Update(s.rate));
    assert Earned(u) == 0 && u.debt == Earned(s);
  }

  lemma RunOne(s: State, e: Event)
    ensures Run(s, [e]) == Step(s, e)
  {
    assert [e][..0] == [];
    assert Run(s, [e][..0]) == s;
  }

  /** So a limiter that has not let a single byte through for ten seconds makes the first call after an
      update to the same rate wait for the longest time there is. */
  lemma {:induction false} IdleUpdateCharges(rate: nat, bytes: nat)
    requires 0 < rate <= NANOS && 0 < bytes <= NANOS
    ensures var idle := Run(New(rate), [Tick(10 * NANOS)]);
            var r := Fresh(Step(idle, Update(rate)), bytes);
            && Owes(idle, bytes) == (if bytes > 11 * rate then bytes - 11 * rate else 0)
            && |r.calls| == 1 && r.calls[0].phase.Waiting? && r.calls[0].phase.deadline == r.now + 5_000_000_000
  {
    var s := New(rate);
    var tick := Tick(10 * NANOS);
    RunOne(s, tick);
    var idle := Run(s, [tick]);
    ElevenSeconds(rate);
    assert Earned(idle) == 11 * rate;
    var u := Step(idle, Update(rate));
    EarnedIsAllowed(idle);
    FreshCallWaits(u, bytes);
    assert Elapsed(u.now, u.baseline) == 0 && Allowed(0, rate) == 0;
    hide Run, Allowed, Elapsed;
    LongWait(11 * rate + bytes, rate);
  }

  lemma ElevenSeconds(rate: nat)
    ensures 11 * NANOS * rate / NANOS == 11 * rate
  {
    DivModUnique(11 * NANOS * rate, NANOS, 11 * rate, 0);
  }

  lemma {:induction false} LongWait(total: nat, rate: nat)
    requires 0 < rate <= NANOS && 11 * rate < total <= 12 * NANOS
    ensures SleepNs(FullWait(total, 0, rate)) == MAX_WAIT_NS
  {
    var wait := total * NANOS / rate;
    DivUpper(total * NANOS, rate);
    DivLower(total * NANOS, rate);
    MulMonotone(1, rate, wait);
    if wait < 11 * NANOS {
      MulMonotone(wait + 1, 11 * NANOS, rate);
    }
  }

  // ----- Where the bound stops -----

  lemma RunFour(s: State, a: Event, b: Event, c: Event, d: Event)
    ensures Run(s, [a, b, c, d]) == Step(Step(Step(Step(s, a), b), c), d)
  {
    assert [a, b, c, d][..3] == [a, b, c] && [a, b, c][..2] == [a, b] && [a, b][..1] == [a];
    assert Run(s, [a]) == Step(s, a);
    assert Run(s, [a, b]) == Step(Run(s, [a]), b);
    assert Run(s, [a, b, c]) == Step(Run(s, [a, b]), c);
  }

  /** What the clamp costs a call in bytes: a full wait above five seconds overdraws the budget, up to
      one byte of rounding. */
  lemma {:induction false} CutWaitOverdraws(total: nat, rate: nat, baseline: int, now: int)
    requires rate > 0 && baseline <= now
    requires now - baseline < TWO_64 && (now - baseline) * rate / NANOS < TWO_64
    ensures var wait := FullWait(total, Allowed(Elapsed(now, baseline), rate), rate);
            && SleepNs(wait) <= MAX_WAIT_NS
            && (if wait <= MAX_WAIT_NS then WithinBudget(total, rate, baseline, now + SleepNs(wait))
                else !WithinBudget(total + 1, rate, baseline, now + SleepNs(wait)))
  {
    var wait := FullWait(total, Allowed(Elapsed(now, baseline), rate), rate);
    if wait <= MAX_WAIT_NS {
      WaitPaysOff(total, rate, baseline, now, now);
    } else {
      var elapsed: nat := now - baseline;
      var allowed := elapsed * rate / NANOS;
      assert Elapsed(now, baseline) == elapsed && Allowed(elapsed, rate) == allowed;
      DivUpper(elapsed * rate, NANOS);
      DivLower((total - allowed) * NANOS, rate);
      Distribute(rate, elapsed, wait);
      hide Allowed, Elapsed, FullWait;
      MulMonotone(elapsed + SleepNs(wait) + 1, elapsed + wait, rate);
      assert rate * (elapsed + wait) <= (total + 1) * NANOS;
    }
  }

  lemma DivLower(n: nat, d: nat)
    requires d > 0
    ensures d * (n / d) <= n
  {
  }

  /** Ten bytes at one byte per second: the clamp lets them go after five seconds, four bytes
      ahead of the bound. */
  lemma ClampedCallOverdraws()
    ensures var s := Step(Step(Run(New(1), [Begin(10), Charge(0), ReadClock(0), Decide(0)]), Tick(MAX_WAIT_NS)), Return(0));
            && !WithinMeans(s)
            && Admitted(s.calls, 0) * NANOS > s.rate * (s.now + NANOS + 1)
  {
    hide Run, Admitted, WithinMeans;
    RunFour(New(1), Begin(10), Charge(0), ReadClock(0), Decide(0));
    var s1 := Step(Step(Step(New(1), Begin(10)), Charge(0)), ReadClock(0));
    assert s1.calls == [Call(10, 1, 0, Clocked(10, 0))];
    TenBytesWait(s1);
    var s3 := Step(Step(Step(s1, Decide(0)), Tick(MAX_WAIT_NS)), Return(0));
    assert s3.calls == [Call(10, 1, 0, Returned(10, true))];
    TenBytesOverdraw(s3);
  }

  lemma TenBytesWait(s: State)
    requires s.calls == [Call(10, 1, 0, Clocked(10, 0))] && s.baseline == -1_000_000_000 && s.now == 0
    ensures Step(s, Decide(0)) == s.(calls := [Call(10, 1, 0, Waiting(10, MAX_WAIT_NS, true))])
  {
    assert Allowed(Elapsed(0, -1_000_000_000), 1) == 1;
  }

  lemma TenBytesOverdraw(s: State)
    requires s.calls == [Call(10, 1, 0, Returned(10, true))] && s.now == MAX_WAIT_NS && s.rate == 1 && s.epoch == 0
    ensures !WithinMeans(s) && Admitted(s.calls, 0) * NANOS > s.rate * (s.now + NANOS + 1)
  {
    assert s.calls[0].phase.over && s.calls[..0] == [];
  }

  /** The bounds speak of calls that start after an update only, and have to: a call that read
      the clock before the update and loads the baseline after it sees a negative time, which
      wraps around, and does not wait for anything below nine billion seconds' worth of bytes. */
  lemma {:induction false} CallInFlightEscapes(s: State, i: nat)
    requires i < |s.calls| && s.calls[i].phase.Clocked?
    requires var c := s.calls[i];
             && s.baseline - 0x8000_0000_0000_0000 <= c.phase.readAt < s.baseline
             && 0 < c.rate <= NANOS && c.phase.total <= 9_000_000_000 * c.rate
    ensures var c := s.calls[i];
            var p := Step(s, Decide(i)).calls[i].phase;
            p.Waiting? && p.total == c.phase.total && p.deadline == s.now
  {
    var c := s.calls[i];
    WrappedAllowance(s.baseline - c.phase.readAt, c.rate);
    assert Elapsed(c.phase.readAt, s.baseline) == TWO_64 - (s.baseline - c.phase.readAt);
    hide Allowed, Elapsed;
    assert FullWait(c.phase.total, Allowed(Elapsed(c.phase.readAt, s.baseline), c.rate), c.rate) == 0;
  }

  /** Such a call exists: it reads the clock, an update to any rate comes a nanosecond later, and it
      returns without a wait although the limiter owed it up to nine billion seconds of waiting. */
  lemma CallInFlightRun(rate: nat, bytes: nat)
    requires 0 < rate <= NANOS && 0 < bytes <= 9_000_000_000 * rate
    ensures var s := Run(Run(New(rate), [Begin(bytes), Charge(0), ReadClock(0), Tick(1)]), [Update(rate), Decide(0)]);
            && |s.calls| == 1 && s.now == 1 && s.baseline == 1
            && s.calls[0].phase.Waiting? && s.calls[0].phase.total == bytes && s.calls[0].phase.deadline == s.now
  {
    hide Run, Allowed, Elapsed, FullWait;
    var s0 := New(rate);
    RunFour(s0, Begin(bytes), Charge(0), ReadClock(0), Tick(1));
    var s1 := Step(Step(s0, Begin(bytes)), Charge(0));
    assert s1.calls == [Call(bytes, rate, 0, Charged(bytes))];
    var s2 := Step(Step(s1, ReadClock(0)), Tick(1));
    assert s2.calls == [Call(bytes, rate, 0, Clocked(bytes, 0))];
    RunTwo(s2, Update(rate), Decide(0));
    CallInFlightEscapes(Step(s2, Update(rate)), 0);
  }

  lemma {:induction false} RunTwo(s: State, a: Event, b: Event)
    ensures Run(s, [a, b]) == Step(Step(s, a), b)
  {
    assert [a, b][..1] == [a];
    assert Run(s, [a]) == Step(s, a);
  }

  lemma {:induction false} WrappedAllowance(behind: nat, rate: nat)
    requires 0 < behind <= 0x8000_0000_0000_0000 && 0 < rate <= NANOS
    ensures 9_000_000_000 * rate <= Allowed(TWO_64 - behind, rate)
  {
    var elapsed: nat := TWO_64 - behind;
    MulMonotone(9_000_000_000 * NANOS, elapsed, rate);
    MulMonotone(rate, NANOS, elapsed);
    var product := elapsed * rate;
    assert 9_000_000_000 * rate * NANOS <= product <= elapsed * NANOS;
    assert 9_000_000_000 * rate <= product / NANOS <= elapsed;
  }

  // ----- The limiter as an object -----

  /** The three atomic fields, and its two operations when nothing runs in between. */
  class Limiter {
    var baselineNs: int
    var debt: nat
    var bytesPerSec: nat

    ghost function At(nowNs: int): State
      reads this
    {
      State(baselineNs, debt, bytesPerSec, nowNs, 0, debt, [])
    }

    constructor (bytesPerSec: nat)
      ensures At(0) == New(bytesPerSec)
    {
      this.baselineNs, this.debt, this.bytesPerSec := -1_000_000_000, 0, bytesPerSec;
    }

    method Acquire(bytes: nat, nowNs: int) returns (sleepNs: nat)
      modifies this
      ensures var s := Run(old(At(nowNs)), [Begin(bytes), Charge(0), ReadClock(0), Decide(0)]);
              && baselineNs == s.baseline && debt == s.debt && bytesPerSec == s.rate
              && |s.calls| == 1
              && match s.calls[0].phase {
                   case Free => sleepNs == 0
                   case Waiting(total, deadline, _) => total == debt && deadline == nowNs + sleepNs
                   case _ => false
                 }
    {
      hide Allowed, Elapsed, Run;
      RunFour(At(nowNs), Begin(bytes), Charge(0), ReadClock(0), Decide(0));
      ghost var s1 := Step(At(nowNs), Begin(bytes));
      assert s1.calls == [s1.calls[0]];
      ghost var s2 := Step(s1, Charge(0));
      assert s2.calls == [s2.calls[0]];
      ghost var s3 := Step(s2, ReadClock(0));
      assert s3.calls == [s3.calls[0]];
      var rate := bytesPerSec;
      if rate == 0 || bytes == 0 {
        return 0;
      }
      debt := debt + bytes;
      var totalDebt := debt;
      var allowed := Allowed(Elapsed(nowNs, baselineNs), rate);
      sleepNs := 0;
      if totalDebt > allowed {
        var deficit := totalDebt - allowed;
        var waitNs := deficit * NANOS / rate % TWO_64;
        sleepNs := Min(waitNs, MAX_WAIT_NS);
      }
    }

    method UpdateRate(rate: nat, nowNs: int)
      modifies this
      ensures var s := Step(old(At(nowNs)), Update(rate));
              baselineNs == s.baseline && debt == s.debt && bytesPerSec == s.rate
    {
      var oldRate := bytesPerSec;
      if rate == 0 {
        bytesPerSec := 0;
        return;
      }
      if oldRate == 0 {
        baselineNs, debt := nowNs, 0;
      } else {
        var used := Allowed(Elapsed(nowNs, baselineNs), oldRate);
        baselineNs, debt := nowNs, used;
      }
      bytesPerSec := rate;
    }
  }
}
