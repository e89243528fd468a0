/** Nobody waits for ever: what the engine can do by itself, and how much of it there is to do. */
module EngineProgress {
  import opened ByteStore
  import opened FragmentAttempt
  import opened Planner
  import RetryPolicy
  import opened Engine
  import opened Sessions

  // ---- How much is left ----

  /** Where in a round of the retry loop the phase stands, counted down. */
  function Place(p: Phase): nat {
    match p
    case Deciding => 7
    case Queued => 6
    case Active(a, _) => if Terminal(a) then 4 else 5
    case Sleeping(_) => 3
    case Exited(_) => 2
    case Panicked => 1
    case Joined => 0
    case Aborted => 0
  }

  function Rank(cfg: Config, w: Worker): nat {
    8 * (if w.attempt < cfg.maxRetries then cfg.maxRetries - w.attempt else 0) + Place(w.phase)
  }

  function Ranks(cfg: Config, workers: seq<Worker>): nat {
    var n := |workers|;
    if n == 0 then 0 else Ranks(cfg, workers[..n - 1]) + Rank(cfg, workers[n - 1])
  }

  function DriverRank(d: Driver): nat {
    if d.Running? then 2 else if d.Draining? then 1 else 0
  }

  function Measure(cfg: Config, s: State): nat {
    Ranks(cfg, s.workers) + DriverRank(s.driver)
  }

  /** A worker has moved on to another place or another round, or the driver has moved on. What an
      attempt under way reads and writes does not count. */
  predicate Turned(s: State, r: State)
    requires |s.workers| == |r.workers|
  {
    s.driver != r.driver
    || exists i :: 0 <= i < |s.workers| && Moved(s.workers[i], r.workers[i])
  }

  predicate Moved(w: Worker, v: Worker) {
    w.attempt != v.attempt || Place(w.phase) != Place(v.phase)
  }

  lemma {:induction false} RanksSet(cfg: Config, workers: seq<Worker>, i: nat, w: Worker)
    requires i < |workers|
    ensures Ranks(cfg, workers[i := w]) + Rank(cfg, workers[i]) == Ranks(cfg, workers) + Rank(cfg, w)
  {
    var n := |workers|;
    var changed := workers[i := w];
    if i == n - 1 {
      assert changed[..n - 1] == workers[..n - 1];
    } else {
      RanksSet(cfg, workers[..n - 1], i, w);
      assert changed[..n - 1] == workers[..n - 1][i := w];
    }
  }

  /** The worker of the event has not moved, or has come down. */
  predicate ComesDown(cfg: Config, w: Worker, v: Worker) {
    if Moved(w, v) then Rank(cfg, v) < Rank(cfg, w) else Rank(cfg, v) == Rank(cfg, w)
  }

  lemma WorkerComesDown(cfg: Config, s: State, i: nat, e: Event)
    requires Inv(cfg, s) && i < |s.workers|
    ensures var r := StepWorker(cfg, s, i, e);
            && |r.workers| == |s.workers| && r.workers == s.workers[i := r.workers[i]]
            && ComesDown(cfg, s.workers[i], r.workers[i])
            && (r.driver == s.driver || (s.driver.Running? && !r.driver.Running?))
  {
    hide Tiled, OrphansInv, ActiveCount, OnDisk, RetryPolicy.BackoffSecs, PhaseInv, Served, NextAttempt, FragmentAttempt.Step;
    assert WorkerInv(cfg, i, s.workers[i], s.records[i], s.disk, i in s.reported, s.driver.Running?);
    if e.Io? && s.workers[i].phase.Active? && !Terminal(s.workers[i].phase.attempt) {
      var r := StepIo(cfg, s, i, e.ev);
      assert r.workers[i].phase.Active?;
    }
  }

  /** Every event either leaves everybody in place or brings the measure down. */
  lemma TurnsComeDown(cfg: Config, s: State, e: Event)
    requires Inv(cfg, s)
    ensures var r := Engine.Step(cfg, s, e);
            && |r.workers| == |s.workers|
            && (if Turned(s, r) then Measure(cfg, r) < Measure(cfg, s) else Measure(cfg, r) == Measure(cfg, s))
  {
    var r := Engine.Step(cfg, s, e);
    hide Inv, StepWorker;
    match e
    case Drained =>
    case Sync(_) =>
    case Land(_, _) =>
    case _ =>
      if e.i < |s.workers| {
        OneComesDown(cfg, s, e.i, e);
      }
  }

  lemma OneComesDown(cfg: Config, s: State, i: nat, e: Event)
    requires Inv(cfg, s) && i < |s.workers|
    ensures var r := StepWorker(cfg, s, i, e);
            && |r.workers| == |s.workers|
            && (if Turned(s, r) then Measure(cfg, r) < Measure(cfg, s) else Measure(cfg, r) == Measure(cfg, s))
  {
    var r := StepWorker(cfg, s, i, e);
    hide Inv, StepWorker, Ranks, Rank, Place;
    WorkerComesDown(cfg, s, i, e);
    RanksSet(cfg, s.workers, i, r.workers[i]);
    if Turned(s, r) && s.driver == r.driver {
      var k :| 0 <= k < |s.workers| && Moved(s.workers[k], r.workers[k]);
      if k != i {
        Unmoved(s.workers[k]);
      }
    }
  }

  lemma Unmoved(w: Worker)
    ensures !Moved(w, w)
  {
  }

  function Turns(cfg: Config, s: State, events: seq<Event>): nat
    requires |s.workers| == |cfg.frags| == |s.records|
    decreases |events|
  {
    var n := |events|;
    if n == 0 then 0
    else
      var before, after := RunEvents(cfg, s, events[..n - 1]), RunEvents(cfg, s, events);
      Turns(cfg, s, events[..n - 1]) + if Turned(before, after) then 1 else 0
  }

  /** However workers, breaker, network, storage and driver are scheduled, no session takes more turns
      than eight for each round every worker may have, and two for the driver. Only the bytes of an attempt
      under way are not counted. */
  lemma {:induction false} ProgressIsBounded(cfg: Config, c: Checkpoint, events: seq<Event>)
    requires Truthful(cfg, c)
    ensures var s := Resume(cfg, c);
            && Turns(cfg, s, events) + Measure(cfg, RunEvents(cfg, s, events)) <= Measure(cfg, s)
            && Measure(cfg, s) <= |cfg.frags| * (8 * cfg.maxRetries + 7) + 2
    decreases |events|
  {
    var s := Resume(cfg, c);
    var n := |events|;
    if n == 0 {
      AtMost(cfg, s.workers);
    } else {
      hide Inv, Measure, Turned, Truthful, Resume, Engine.Step;
      ProgressIsBounded(cfg, c, events[..n - 1]);
      ResumeInv(cfg, c);
      RunKeepsInv(cfg, s, events[..n - 1]);
      TurnsComeDown(cfg, RunEvents(cfg, s, events[..n - 1]), events[n - 1]);
      RunAppend(cfg, s, events[..n - 1], events[n - 1]);
      assert events[..n - 1] + [events[n - 1]] == events;
    }
  }

  lemma {:induction false} AtMost(cfg: Config, workers: seq<Worker>)
    requires forall i | 0 <= i < |workers| :: workers[i].attempt == 0
    ensures Ranks(cfg, workers) <= |workers| * (8 * cfg.maxRetries + 7)
  {
    var n := |workers|;
    if n == 0 {
    } else {
      AtMost(cfg, workers[..n - 1]);
      assert n * (8 * cfg.maxRetries + 7) == (n - 1) * (8 * cfg.maxRetries + 7) + (8 * cfg.maxRetries + 7);
    }
  }

  // ---- Who can move ----

  /** The event the engine can take for the worker without the network or the storage: the breaker
      answers, a free permit is granted, a finished attempt reaches the retry loop, a sleep ends, an ended
      task is joined. */
  function OwnEvent(s: State, i: nat): Option<Event>
    requires i < |s.workers|
  {
    match s.workers[i].phase
    case Deciding => Some(BreakerSays(i, true))
    case Queued => if s.free > 0 then Some(GrantPermit(i)) else None
    case Active(a, _) => if Terminal(a) then Some(Settle(i)) else None
    case Sleeping(_) => Some(Wake(i))
    case Exited(_) => Some(Join(i))
    case Panicked => Some(Join(i))
    case Joined => None
    case Aborted => None
  }

  lemma OwnEventMoves(cfg: Config, s: State, i: nat)
    requires Inv(cfg, s) && s.driver.Running? && i < |s.workers| && OwnEvent(s, i).Some?
    ensures var r := Engine.Step(cfg, s, OwnEvent(s, i).value);
            && |r.workers| == |s.workers| && Turned(s, r) && Measure(cfg, r) < Measure(cfg, s)
  {
    hide Measure;
    var e := OwnEvent(s, i).value;
    var r := Engine.Step(cfg, s, e);
    TurnsComeDown(cfg, s, e);
    hide Tiled, OrphansInv, ActiveCount, OnDisk, RetryPolicy.BackoffSecs;
    assert WorkerInv(cfg, i, s.workers[i], s.records[i], s.disk, i in s.reported, s.driver.Running?);
    assert Moved(s.workers[i], r.workers[i]);
  }

  /** An attempt under way: the network or the storage has to act next. */
  predicate UnderWay(p: Phase) {
    p.Active? && !Terminal(p.attempt)
  }

  lemma {:induction false} SomeActive(workers: seq<Worker>) returns (i: nat)
    requires ActiveCount(workers) > 0
    ensures i < |workers| && workers[i].phase.Active?
    decreases |workers|
  {
    var last := |workers| - 1;
    if workers[last].phase.Active? {
      i := last;
    } else {
      i := SomeActive(workers[..last]);
    }
  }

  /** Waiting for the concurrency semaphore implies that another worker holds one of its permits. */
  lemma QueuedWaitsForHolder(cfg: Config, s: State) returns (i: nat)
    requires Inv(cfg, s) && cfg.permits >= 1 && s.free == 0
    ensures i < |s.workers| && s.workers[i].phase.Active?
  {
    i := SomeActive(s.workers);
  }

  /** While the driver runs, the engine is never stuck by its own doing: all workers are joined, so
      that the closing sync ends the session; or some worker has an event of the engine's own, which brings
      the measure down; or some attempt waits for the network or the storage. */
  lemma {:induction false} NeverStuck(cfg: Config, c: Checkpoint, events: seq<Event>) returns (i: nat)
    requires Truthful(cfg, c) && cfg.permits >= 1 && |cfg.frags| > 0
    requires RunEvents(cfg, Resume(cfg, c), events).driver.Running?
    ensures i < |cfg.frags|
    ensures var s := RunEvents(cfg, Resume(cfg, c), events);
            || (AllOver(s.workers) && forall ok :: Engine.Step(cfg, s, Sync(ok)).driver == if ok then Completed else SyncError)
            || (OwnEvent(s, i).Some?
                && Measure(cfg, Engine.Step(cfg, s, OwnEvent(s, i).value)) < Measure(cfg, s))
            || UnderWay(s.workers[i].phase)
  {
    hide RunEvents, Measure;
    ResumeInv(cfg, c);
    RunKeepsInv(cfg, Resume(cfg, c), events);
    var s := RunEvents(cfg, Resume(cfg, c), events);
    i := 0;
    if j: nat :| j < |s.workers| && !Over(s.workers[j].phase) {
      i := j;
      if s.workers[j].phase.Queued? && s.free == 0 {
        i := QueuedWaitsForHolder(cfg, s);
      }
      if OwnEvent(s, i).Some? {
        OwnEventMoves(cfg, s, i);
      }
    } else {
      assert AllOver(s.workers);
    }
  }
}
