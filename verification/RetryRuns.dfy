/** The retry loop of a worker inside the engine: in every run of the engine each worker does what the
    loop does with the rounds it has been given, and every such sequence of rounds is a run. */
module RetryRuns {
  import opened ByteStore
  import opened FragmentAttempt
  import opened Planner
  import opened RetryPolicy
  import opened Engine
  import opened EngineCompletes
  import Sessions

  // ---- Every run follows the loop ----

  /** The round that the event ends for worker `i`, if it does: the breaker refuses it, or the result of
      its attempt reaches the loop. */
  function Observed(s: State, i: nat, e: Event): seq<Round>
    requires i < |s.workers|
  {
    var p := s.workers[i].phase;
    if e == BreakerSays(i, false) && p.Deciding? then [BreakerOpen]
    else if e == Settle(i) && p.Active? && p.attempt.Succeeded? then [Tried(Outcome.Done(p.attempt.total))]
    else if e == Settle(i) && p.Active? && p.attempt.Failed? then [Tried(Outcome.Error(p.attempt.error))]
    else []
  }

  /** The rounds worker `i` has had, in order. */
  function RoundsOf(cfg: Config, s: State, events: seq<Event>, i: nat): seq<Round>
    requires i < |s.workers| == |cfg.frags| == |s.records|
    decreases |events|
  {
    var n := |events|;
    if n == 0 then []
    else RoundsOf(cfg, s, events[..n - 1], i) + Observed(RunEvents(cfg, s, events[..n - 1]), i, events[n - 1])
  }

  /** The loop's counters in front of a round, with `begun` attempts of that round made. */
  predicate InFront(cfg: Config, i: nat, w: Worker, rounds: seq<Round>, begun: nat)
    requires i < |cfg.frags|
  {
    && AllRetried(rounds) && w.attempt == |rounds| <= cfg.maxRetries
    && w.tries == Tries(rounds) + begun && w.slept == Slept(cfg.frags[i].index, rounds)
  }

  /** The loop's counters behind its last round: all rounds before that one were retried. */
  predicate Behind(cfg: Config, i: nat, w: Worker, rounds: seq<Round>)
    requires i < |cfg.frags|
  {
    && |rounds| > 0 && AllRetried(rounds[..|rounds| - 1]) && w.attempt == |rounds| - 1 <= cfg.maxRetries
    && w.tries == Tries(rounds) && w.slept == Slept(cfg.frags[i].index, rounds[..|rounds| - 1])
  }

  /** The round ends the loop: a success, an error not worth a retry, or the last round allowed. */
  predicate Closes(cfg: Config, attempt: nat, round: Round) {
    !IsRetried(round) || attempt == cfg.maxRetries
  }

  /** The worker stands where the loop stands after these rounds. */
  predicate Follows(cfg: Config, i: nat, w: Worker, rounds: seq<Round>)
    requires i < |cfg.frags|
  {
    var n := |rounds|;
    match w.phase
    case Deciding => InFront(cfg, i, w, rounds, 0)
    case Queued => InFront(cfg, i, w, rounds, 0)
    case Active(_, _) => InFront(cfg, i, w, rounds, 1)
    case Sleeping(secs) =>
      && Behind(cfg, i, w, rounds) && w.attempt < cfg.maxRetries && IsRetried(rounds[n - 1])
      && secs == WaitBehind(cfg.frags[i].index, n - 1, rounds[n - 1])
    case Exited(outcome) =>
      && Behind(cfg, i, w, rounds) && Closes(cfg, w.attempt, rounds[n - 1]) && outcome == OutcomeOf(rounds[n - 1])
    case _ => n > 0 ==> AllRetried(rounds[..n - 1])
  }

  /** The event is one of worker `i`. */
  predicate Concerns(e: Event, i: nat) {
    !e.Drained? && !e.Sync? && !e.Land? && e.i == i
  }

  /** Everybody else leaves the worker alone. */
  lemma Undisturbed(cfg: Config, s: State, e: Event, i: nat)
    requires i < |s.workers| == |cfg.frags| == |s.records| && !Concerns(e, i)
    ensures Engine.Step(cfg, s, e).workers[i] == s.workers[i] && Observed(s, i, e) == []
  {
    hide BackoffSecs, Overlay, FragmentAttempt.Step, Served, Abandon;
  }

  lemma StepFollows(cfg: Config, s: State, e: Event, i: nat, rounds: seq<Round>)
    requires i < |s.workers| == |cfg.frags| == |s.records| && Follows(cfg, i, s.workers[i], rounds)
    ensures Follows(cfg, i, Engine.Step(cfg, s, e).workers[i], rounds + Observed(s, i, e))
  {
    hide Follows, StepWorker, Observed;
    if Concerns(e, i) {
      OwnStepFollows(cfg, s, e, i, rounds);
    } else {
      Undisturbed(cfg, s, e, i);
      assert rounds + [] == rounds;
    }
  }

  lemma OwnStepFollows(cfg: Config, s: State, e: Event, i: nat, rounds: seq<Round>)
    requires i < |s.workers| == |cfg.frags| == |s.records| && Concerns(e, i) && Follows(cfg, i, s.workers[i], rounds)
    ensures Follows(cfg, i, StepWorker(cfg, s, i, e).workers[i], rounds + Observed(s, i, e))
  {
    hide WaitBehind, FragmentAttempt.Step, Served, Tries, Slept, Abandon;
    var o := Observed(s, i, e);
    if |o| == 0 {
      assert rounds + o == rounds;
      if e.Wake? && s.workers[i].phase.Sleeping? {
        Wakes(cfg, i, s.workers[i], rounds);
      }
    } else {
      EndsRound(cfg, s, e, i, rounds, o[0]);
      assert rounds + o == rounds + [o[0]];
    }
  }

  /** Behind the sleep the worker stands in front of the next round. */
  lemma Wakes(cfg: Config, i: nat, w: Worker, rounds: seq<Round>)
    requires i < |cfg.frags| && w.phase.Sleeping? && Follows(cfg, i, w, rounds)
    ensures InFront(cfg, i, Worker(w.attempt + 1, w.tries, w.slept + w.phase.secs, Deciding), rounds, 0)
  {
    hide WaitBehind, IsRetried;
    var n := |rounds|;
    OneMoreRound(cfg.frags[i].index, rounds[..n - 1], rounds[n - 1]);
    assert rounds == rounds[..n - 1] + [rounds[n - 1]];
  }

  /** The end of a round puts the worker to sleep, or ends it. */
  lemma EndsRound(cfg: Config, s: State, e: Event, i: nat, rounds: seq<Round>, round: Round)
    requires i < |s.workers| == |cfg.frags| == |s.records| && Concerns(e, i) && Follows(cfg, i, s.workers[i], rounds)
    requires Observed(s, i, e) == [round]
    ensures Follows(cfg, i, StepWorker(cfg, s, i, e).workers[i], rounds + [round])
  {
    hide BackoffSecs, Tries, Slept;
    OneMoreRound(cfg.frags[i].index, rounds, round);
    assert (rounds + [round])[..|rounds|] == rounds;
  }

  /** In every run, whoever else does what in between, each worker is where the retry loop is after the
      rounds it has had: it has made an attempt in each round the breaker let through, slept the wait behind
      each round it retried, and ended with the outcome of the first round that is not retried, or of the
      last one allowed. No other round is begun, and nothing slept, behind an error not worth a retry. */
  lemma {:induction false} RunsFollowTheLoop(cfg: Config, c: Sessions.Checkpoint, events: seq<Event>, i: nat)
    requires i < |cfg.frags|
    ensures var s := Sessions.Resume(cfg, c);
            Follows(cfg, i, RunEvents(cfg, s, events).workers[i], RoundsOf(cfg, s, events, i))
    decreases |events|
  {
    var n := |events|;
    if n == 0 {
    } else {
      var s := Sessions.Resume(cfg, c);
      RunsFollowTheLoop(cfg, c, events[..n - 1], i);
      StepFollows(cfg, RunEvents(cfg, s, events[..n - 1]), events[n - 1], i, RoundsOf(cfg, s, events[..n - 1], i));
    }
  }

  /** A worker whose last attempt was refused with `Retry-After` sleeps exactly as long as the server
      asked, up to 1024 seconds. */
  lemma ServersWaitIsKept(cfg: Config, c: Sessions.Checkpoint, events: seq<Event>, i: nat, asked: nat)
    requires i < |cfg.frags|
    requires var s := Sessions.Resume(cfg, c);
             && RunEvents(cfg, s, events).workers[i].phase.Sleeping?
             && var rounds := RoundsOf(cfg, s, events, i);
                |rounds| > 0 && rounds[|rounds| - 1] == Tried(Outcome.Error(Throttled(Some(asked))))
    ensures RunEvents(cfg, Sessions.Resume(cfg, c), events).workers[i].phase.secs == if asked <= 1024 then asked else 1024
  {
    var s := Sessions.Resume(cfg, c);
    var rounds := RoundsOf(cfg, s, events, i);
    hide RunEvents, RoundsOf, Follows, Sessions.Resume;
    RunsFollowTheLoop(cfg, c, events, i);
    SleepIsDue(cfg, i, RunEvents(cfg, s, events).workers[i], rounds);
  }

  lemma SleepIsDue(cfg: Config, i: nat, w: Worker, rounds: seq<Round>)
    requires i < |cfg.frags| && |rounds| > 0 && w.phase.Sleeping? && Follows(cfg, i, w, rounds)
    ensures IsRetried(rounds[|rounds| - 1])
    ensures WaitIsDue(cfg.frags[i].index, |rounds| - 1, rounds[|rounds| - 1], w.phase.secs)
  {
    hide WaitBehind, WaitIsDue;
    WaitsAreDue(cfg.frags[i].index, |rounds| - 1, rounds[|rounds| - 1]);
  }

  // ---- The loop is a run ----

  /** A round that is retried, as the engine's events. */
  function RoundEvents(i: nat, round: Round): seq<Event>
    requires IsRetried(round)
  {
    FailedRound(i, round) + [Wake(i)]
  }

  /** A round that comes to an error. */
  function FailedRound(i: nat, round: Round): seq<Event>
    requires OutcomeOf(round).Error?
  {
    if round.BreakerOpen? then [BreakerSays(i, false)]
    else [BreakerSays(i, true), GrantPermit(i), Io(i, Interrupt(round.outcome.error)), Settle(i)]
  }

  /** It brings the worker to its sleep or, if it is the last one, to its exit; nobody else notices. */
  lemma RoundFails(cfg: Config, b: State, events: seq<Event>, s: State, i: nat, round: Round) returns (r: State)
    requires |b.workers| == |cfg.frags| == |b.records| && RunEvents(cfg, b, events) == s
    requires i < |cfg.frags| && OnlyWorker(cfg, s, s, i) && s.free > 0
    requires s.workers[i].phase.Deciding? && s.workers[i].attempt <= cfg.maxRetries && OutcomeOf(round).Error?
    ensures RunEvents(cfg, b, events + FailedRound(i, round)) == r && OnlyWorker(cfg, s, r, i) && r.free == s.free
    ensures var w := s.workers[i];
            r.workers[i] == Worker(w.attempt, w.tries + (if round.Tried? then 1 else 0), w.slept,
                                   if Closes(cfg, w.attempt, round) then Exited(OutcomeOf(round))
                                   else Sleeping(WaitBehind(cfg.frags[i].index, w.attempt, round)))
  {
    hide RunEvents, BackoffSecs, Overlay;
    if round.BreakerOpen? {
      r := Engine.Step(cfg, s, BreakerSays(i, false));
      RunAppend(cfg, b, events, BreakerSays(i, false));
    } else {
      var e := round.outcome.error;
      var s1 := Engine.Step(cfg, s, BreakerSays(i, true));
      RunAppend(cfg, b, events, BreakerSays(i, true));
      var s2 := Engine.Step(cfg, s1, GrantPermit(i));
      RunAppend(cfg, b, events + [BreakerSays(i, true)], GrantPermit(i));
      var s3 := Engine.Step(cfg, s2, Io(i, Interrupt(e)));
      RunAppend(cfg, b, events + [BreakerSays(i, true)] + [GrantPermit(i)], Io(i, Interrupt(e)));
      r := Engine.Step(cfg, s3, Settle(i));
      RunAppend(cfg, b, events + [BreakerSays(i, true)] + [GrantPermit(i)] + [Io(i, Interrupt(e))], Settle(i));
      assert events + [BreakerSays(i, true)] + [GrantPermit(i)] + [Io(i, Interrupt(e))] + [Settle(i)]
          == events + FailedRound(i, round);
    }
  }

  /** A retried round takes the worker to its next round, with one more try if the breaker let it
      through, and with the wait added. */
  lemma RoundMoves(cfg: Config, b: State, events: seq<Event>, s: State, i: nat, round: Round) returns (r: State)
    requires |b.workers| == |cfg.frags| == |b.records| && RunEvents(cfg, b, events) == s
    requires i < |cfg.frags| && OnlyWorker(cfg, s, s, i) && s.free > 0
    requires s.workers[i].phase.Deciding? && s.workers[i].attempt < cfg.maxRetries && IsRetried(round)
    ensures RunEvents(cfg, b, events + RoundEvents(i, round)) == r && OnlyWorker(cfg, s, r, i) && r.free == s.free
    ensures var w := s.workers[i];
            r.workers[i] == Worker(w.attempt + 1, w.tries + (if round.Tried? then 1 else 0),
                                   w.slept + WaitBehind(cfg.frags[i].index, w.attempt, round), Deciding)
  {
    hide RunEvents, FailedRound, WaitBehind;
    var s1 := RoundFails(cfg, b, events, s, i, round);
    r := Engine.Step(cfg, s1, Wake(i));
    RunAppend(cfg, b, events + FailedRound(i, round), Wake(i));
    assert events + FailedRound(i, round) + [Wake(i)] == events + RoundEvents(i, round);
  }

  /** Any rounds that are all retried are a run, after which the worker stands where the loop's counters
      say. */
  lemma {:induction false} RetryLoopIsARun(cfg: Config, b: State, i: nat, rounds: seq<Round>) returns (events: seq<Event>)
    requires i < |cfg.frags| && OnlyWorker(cfg, b, b, i) && b.free > 0 && b.workers[i] == Worker(0, 0, 0, Deciding)
    requires |rounds| <= cfg.maxRetries && AllRetried(rounds)
    ensures var r := RunEvents(cfg, b, events);
            && OnlyWorker(cfg, b, r, i) && r.free == b.free
            && r.workers[i] == Worker(|rounds|, Tries(rounds), Slept(cfg.frags[i].index, rounds), Deciding)
  {
    var n := |rounds|;
    if n == 0 {
      events := [];
      NoEvents(cfg, b);
    } else {
      events := RetryLoopIsARun(cfg, b, i, rounds[..n - 1]);
      hide RunEvents;
      var s := RunEvents(cfg, b, events);
      var r := RoundMoves(cfg, b, events, s, i, rounds[n - 1]);
      events := events + RoundEvents(i, rounds[n - 1]);
    }
  }

  /** And so is the whole loop, its closing round included: any rounds of which all but the last are
      retried and the last one closes lead to the loop's outcome with the loop's counters. */
  lemma WholeLoopIsARun(cfg: Config, b: State, i: nat, rounds: seq<Round>) returns (events: seq<Event>)
    requires i < |cfg.frags| && OnlyWorker(cfg, b, b, i) && b.free > 0 && b.workers[i] == Worker(0, 0, 0, Deciding)
    requires Tiled(cfg.frags, |cfg.source|) && 0 < |rounds| <= cfg.maxRetries + 1
    requires AllRetried(rounds[..|rounds| - 1]) && Closes(cfg, |rounds| - 1, rounds[|rounds| - 1])
    requires OutcomeOf(rounds[|rounds| - 1]).Done? ==> OutcomeOf(rounds[|rounds| - 1]).total == Len(cfg, i)
    ensures var n, r := |rounds|, RunEvents(cfg, b, events);
            && OnlyWorker(cfg, b, r, i) && r.free == b.free
            && r.workers[i] == Worker(n - 1, Tries(rounds), Slept(cfg.frags[i].index, rounds[..n - 1]),
                                      Exited(OutcomeOf(rounds[n - 1])))
  {
    var init, last := rounds[..|rounds| - 1], rounds[|rounds| - 1];
    events := RetryLoopIsARun(cfg, b, i, init);
    hide RunEvents, Slept, Tiled;
    var s := RunEvents(cfg, b, events);
    if OutcomeOf(last).Done? {
      TilesEndInside(cfg.frags, |cfg.source|, i);
      var r;
      events, r := Succeeds(cfg, b, events, s, i);
    } else {
      var r := RoundFails(cfg, b, events, s, i, last);
      events := events + FailedRound(i, last);
    }
  }
}
