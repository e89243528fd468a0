/** Admission to the connection pool: one global semaphore, one semaphore per host, a table from
    hosts to semaphores that a cleanup prunes, and a count of active connections. Acquirers, drops
    and cleanups interleave step by step. */
module Connection {
  import Arithmetic

  type Host = nat

  /** Where an `acquire`, and later the permit it returned, has got to. A `sem` is the identity of
      the host semaphore it looked up. */
  datatype Phase =
    | WaitingGlobal
    | HasGlobal
    | WaitingHost(sem: nat)
    | HasHost(sem: nat)
    | Active(sem: nat)
    | Uncounted(sem: nat)      // dropping: no longer counted, both permits still held
    | HostOnly(sem: nat)       // dropping: the global permit is back
    | Gone

  datatype Task = Task(host: Host, phase: Phase)

  datatype Limits = Limits(global: nat, perHost: nat)

  /** `free` gives the permits left in every host semaphore ever made; `idle` the hosts whose entry
      a cleanup has found idle and is about to remove, with the entry's shard still locked. */
  datatype Pool = Pool(globalFree: nat, active: nat, table: map<Host, nat>, free: seq<nat>, idle: set<Host>,
                       tasks: seq<Task>)

  datatype Event =
    | Start(host: Host)
    | TakeGlobal(i: nat)
    | Lookup(i: nat)
    | TakeHost(i: nat)
    | CountUp(i: nat)
    | Cancel(i: nat)
    | CountDown(i: nat)
    | ReleaseGlobal(i: nat)
    | ReleaseHost(i: nat)
    | FindIdle(host: Host)
    | RemoveIdle(host: Host)

  function New(limits: Limits): Pool {
    Pool(limits.global, 0, map[], [], {}, [])
  }

  function At(p: Pool, i: nat, phase: Phase): Pool
    requires i < |p.tasks|
  {
    p.(tasks := p.tasks[i := p.tasks[i].(phase := phase)])
  }

  /** Whether the step can be taken: semaphores with no permit left and locked shards block. */
  predicate Enabled(p: Pool, e: Event) {
    match e
    case Start(_) => true
    case TakeGlobal(i) => i < |p.tasks| && p.tasks[i].phase.WaitingGlobal? && p.globalFree > 0
    case Lookup(i) => i < |p.tasks| && p.tasks[i].phase.HasGlobal? && p.tasks[i].host !in p.idle
    case TakeHost(i) =>
      && i < |p.tasks| && p.tasks[i].phase.WaitingHost?
      && p.tasks[i].phase.sem < |p.free| && p.free[p.tasks[i].phase.sem] > 0
    case CountUp(i) => i < |p.tasks| && p.tasks[i].phase.HasHost?
    case Cancel(i) => i < |p.tasks| && (p.tasks[i].phase.WaitingGlobal? || p.tasks[i].phase.WaitingHost?)
    case CountDown(i) => i < |p.tasks| && p.tasks[i].phase.Active? && p.active > 0
    case ReleaseGlobal(i) => i < |p.tasks| && p.tasks[i].phase.Uncounted?
    case ReleaseHost(i) => i < |p.tasks| && p.tasks[i].phase.HostOnly? && p.tasks[i].phase.sem < |p.free|
    case FindIdle(h) => h in p.table && p.table[h] < |p.free| && h !in p.idle
    case RemoveIdle(h) => h in p.idle
  }

  function Step(limits: Limits, p: Pool, e: Event): Pool
    requires Enabled(p, e)
  {
    match e
    case Start(h) => p.(tasks := p.tasks + [Task(h, WaitingGlobal)])
    case TakeGlobal(i) => At(p, i, HasGlobal).(globalFree := p.globalFree - 1)
    case Lookup(i) =>
      var h := p.tasks[i].host;
      if h in p.table then At(p, i, WaitingHost(p.table[h]))
      else At(p, i, WaitingHost(|p.free|)).(table := p.table[h := |p.free|], free := p.free + [limits.perHost])
    case TakeHost(i) =>
      var s := p.tasks[i].phase.sem;
      At(p, i, HasHost(s)).(free := p.free[s := p.free[s] - 1])
    case CountUp(i) => At(p, i, Active(p.tasks[i].phase.sem)).(active := p.active + 1)
    case Cancel(i) =>
      At(p, i, Gone).(globalFree := if p.tasks[i].phase.WaitingHost? then p.globalFree + 1 else p.globalFree)
    case CountDown(i) => At(p, i, Uncounted(p.tasks[i].phase.sem)).(active := p.active - 1)
    case ReleaseGlobal(i) => At(p, i, HostOnly(p.tasks[i].phase.sem)).(globalFree := p.globalFree + 1)
    case ReleaseHost(i) =>
      var s := p.tasks[i].phase.sem;
      At(p, i, Gone).(free := p.free[s := p.free[s] + 1])
    case FindIdle(h) => if p.free[p.table[h]] < limits.perHost then p else p.(idle := p.idle + {h})
    case RemoveIdle(h) => p.(table := p.table - {h}, idle := p.idle - {h})
  }

  /** The events can be taken one after the other from `p`. */
  predicate Runs(limits: Limits, p: Pool, events: seq<Event>)
    decreases |events|, 0
  {
    var n := |events|;
    n == 0
    || (Runs(limits, p, events[..n - 1]) && Enabled(After(limits, p, events[..n - 1]), events[n - 1]))
  }

  function After(limits: Limits, p: Pool, events: seq<Event>): Pool
    requires Runs(limits, p, events)
    decreases |events|, 1
  {
    var n := |events|;
    if n == 0 then p else Step(limits, After(limits, p, events[..n - 1]), events[n - 1])
  }

  // ---- Counting ----

  /** What a task can be counted for. */
  datatype Mark =
    | HoldsGlobal
    | HoldsSem(sem: nat)
    | IsActive
    | HoldsHost(host: Host)
    | ActiveOn(host: Host)

  predicate HasPermit(phase: Phase) {
    phase.HasHost? || phase.Active? || phase.Uncounted? || phase.HostOnly?
  }

  predicate Sat(t: Task, q: Mark) {
    match q
    case HoldsGlobal => !t.phase.WaitingGlobal? && !t.phase.HostOnly? && !t.phase.Gone?
    case HoldsSem(s) => HasPermit(t.phase) && t.phase.sem == s
    case IsActive => t.phase.Active?
    case HoldsHost(h) => HasPermit(t.phase) && t.host == h
    case ActiveOn(h) => t.phase.Active? && t.host == h
  }

  function Count(ts: seq<Task>, q: Mark): nat {
    var n := |ts|;
    if n == 0 then 0 else Count(ts[..n - 1], q) + (if Sat(ts[n - 1], q) then 1 else 0)
  }

  lemma {:induction false} CountUpdate(ts: seq<Task>, i: nat, t: Task, q: Mark)
    requires i < |ts|
    ensures Count(ts[i := t], q) + (if Sat(ts[i], q) then 1 else 0) == Count(ts, q) + (if Sat(t, q) then 1 else 0)
  {
    var n := |ts|;
    var us := ts[i := t];
    if i == n - 1 {
      assert us[..n - 1] == ts[..n - 1];
    } else {
      CountUpdate(ts[..n - 1], i, t, q);
      assert us[..n - 1] == ts[..n - 1][i := t];
    }
  }

  lemma CountAppend(ts: seq<Task>, t: Task, q: Mark)
    ensures Count(ts + [t], q) == Count(ts, q) + if Sat(t, q) then 1 else 0
  {
    assert (ts + [t])[..|ts|] == ts;
  }

  /** Somebody stands behind a count that is not zero. */
  lemma {:induction false} Witness(ts: seq<Task>, q: Mark) returns (i: nat)
    requires Count(ts, q) > 0
    ensures i < |ts| && Sat(ts[i], q)
  {
    var n := |ts|;
    if Sat(ts[n - 1], q) {
      i := n - 1;
    } else {
      i := Witness(ts[..n - 1], q);
    }
  }

  lemma {:induction false} NobodyCounts(ts: seq<Task>, q: Mark)
    requires forall i | 0 <= i < |ts| :: !Sat(ts[i], q)
    ensures Count(ts, q) == 0
  {
    if |ts| == 0 {
    } else {
      NobodyCounts(ts[..|ts| - 1], q);
    }
  }

  lemma {:induction false} CountWider(ts: seq<Task>, q: Mark, r: Mark)
    requires forall i | 0 <= i < |ts| :: Sat(ts[i], q) ==> Sat(ts[i], r)
    ensures Count(ts, q) <= Count(ts, r)
  {
    if |ts| == 0 {
    } else {
      CountWider(ts[..|ts| - 1], q, r);
    }
  }

  // ---- What every run keeps ----

  predicate HasSem(phase: Phase) {
    phase.WaitingHost? || HasPermit(phase)
  }

  /** Every permit is either free or held by exactly one task, in every semaphore ever made. */
  ghost predicate Inv(limits: Limits, p: Pool) {
    && p.globalFree + Count(p.tasks, HoldsGlobal) == limits.global
    && (forall s | 0 <= s < |p.free| :: p.free[s] + Count(p.tasks, HoldsSem(s)) == limits.perHost)
    && p.active == Count(p.tasks, IsActive)
    && (forall i | 0 <= i < |p.tasks| :: HasSem(p.tasks[i].phase) ==> p.tasks[i].phase.sem < |p.free|)
    && (forall h | h in p.table :: p.table[h] < |p.free|)
    && (forall h | h in p.idle :: h in p.table)
  }

  function Bit(t: Task, q: Mark): nat {
    if Sat(t, q) then 1 else 0
  }

  /** Moving one task keeps the books if the semaphores and the counter move by exactly the counts
      it leaves and enters. */
  lemma MoveKeepsInv(limits: Limits, p: Pool, i: nat, phase: Phase, r: Pool)
    requires Inv(limits, p) && i < |p.tasks| && r.tasks == At(p, i, phase).tasks
    requires r.table == p.table && r.idle == p.idle && |r.free| == |p.free|
    requires r.globalFree + Bit(r.tasks[i], HoldsGlobal) == p.globalFree + Bit(p.tasks[i], HoldsGlobal)
    requires r.active + Bit(p.tasks[i], IsActive) == p.active + Bit(r.tasks[i], IsActive)
    requires forall s | 0 <= s < |p.free| ::
               r.free[s] + Bit(r.tasks[i], HoldsSem(s)) == p.free[s] + Bit(p.tasks[i], HoldsSem(s))
    requires HasSem(phase) ==> phase.sem < |p.free|
    ensures Inv(limits, r)
  {
    hide Count, Sat;
    CountUpdate(p.tasks, i, r.tasks[i], HoldsGlobal);
    CountUpdate(p.tasks, i, r.tasks[i], IsActive);
    forall s | 0 <= s < |r.free|
      ensures r.free[s] + Count(r.tasks, HoldsSem(s)) == limits.perHost
    {
      CountUpdate(p.tasks, i, r.tasks[i], HoldsSem(s));
    }
  }

  lemma StartKeepsInv(limits: Limits, p: Pool, h: Host)
    requires Inv(limits, p)
    ensures Inv(limits, Step(limits, p, Start(h)))
  {
    hide Count;
    var t := Task(h, WaitingGlobal);
    CountAppend(p.tasks, t, HoldsGlobal);
    CountAppend(p.tasks, t, IsActive);
    forall s | 0 <= s < |p.free|
      ensures Count(p.tasks + [t], HoldsSem(s)) == Count(p.tasks, HoldsSem(s))
    {
      CountAppend(p.tasks, t, HoldsSem(s));
    }
  }

  /** A new host semaphore starts out with all its permits free and nobody holding one. */
  lemma NewHostKeepsInv(limits: Limits, p: Pool, h: Host)
    requires Inv(limits, p)
    ensures Inv(limits, p.(table := p.table[h := |p.free|], free := p.free + [limits.perHost]))
  {
    hide Count;
    NobodyCounts(p.tasks, HoldsSem(|p.free|));
  }

  lemma LookupKeepsInv(limits: Limits, p: Pool, i: nat)
    requires Inv(limits, p) && Enabled(p, Lookup(i))
    ensures Inv(limits, Step(limits, p, Lookup(i)))
  {
    hide Inv;
    var h := p.tasks[i].host;
    if h in p.table {
      TableIsSound(limits, p, h);
      MoveKeepsInv(limits, p, i, WaitingHost(p.table[h]), Step(limits, p, Lookup(i)));
    } else {
      NewHostKeepsInv(limits, p, h);
      var q := p.(table := p.table[h := |p.free|], free := p.free + [limits.perHost]);
      MoveKeepsInv(limits, q, i, WaitingHost(|p.free|), Step(limits, p, Lookup(i)));
    }
  }

  lemma TableIsSound(limits: Limits, p: Pool, h: Host)
    requires Inv(limits, p) && h in p.table
    ensures p.table[h] < |p.free|
  {
  }

  lemma SemIsSound(limits: Limits, p: Pool, i: nat)
    requires Inv(limits, p) && i < |p.tasks| && HasSem(p.tasks[i].phase)
    ensures p.tasks[i].phase.sem < |p.free|
  {
  }

  lemma PermitStepKeepsInv(limits: Limits, p: Pool, i: nat, e: Event)
    requires Inv(limits, p) && Enabled(p, e)
    requires e == CountUp(i) || e == CountDown(i) || e == ReleaseGlobal(i) || e == ReleaseHost(i)
    ensures Inv(limits, Step(limits, p, e))
  {
    hide Inv;
    SemIsSound(limits, p, i);
    var r := Step(limits, p, e);
    MoveKeepsInv(limits, p, i, r.tasks[i].phase, r);
  }

  lemma CleanupKeepsInv(limits: Limits, p: Pool, e: Event)
    requires Inv(limits, p) && Enabled(p, e) && (e.FindIdle? || e.RemoveIdle?)
    ensures Inv(limits, Step(limits, p, e))
  {
    hide Count;
  }

  lemma StepKeepsInv(limits: Limits, p: Pool, e: Event)
    requires Inv(limits, p) && Enabled(p, e)
    ensures Inv(limits, Step(limits, p, e))
  {
    hide Inv;
    match e
    case Start(h) => StartKeepsInv(limits, p, h);
    case TakeGlobal(i) => MoveKeepsInv(limits, p, i, HasGlobal, Step(limits, p, e));
    case Lookup(i) => LookupKeepsInv(limits, p, i);
    case TakeHost(i) => MoveKeepsInv(limits, p, i, HasHost(p.tasks[i].phase.sem), Step(limits, p, e));
    case CountUp(i) => PermitStepKeepsInv(limits, p, i, e);
    case Cancel(i) => MoveKeepsInv(limits, p, i, Gone, Step(limits, p, e));
    case CountDown(i) => PermitStepKeepsInv(limits, p, i, e);
    case ReleaseGlobal(i) => PermitStepKeepsInv(limits, p, i, e);
    case ReleaseHost(i) => PermitStepKeepsInv(limits, p, i, e);
    case FindIdle(h) => CleanupKeepsInv(limits, p, e);
    case RemoveIdle(h) => CleanupKeepsInv(limits, p, e);
  }

  lemma {:induction false} RunKeepsInv(limits: Limits, p: Pool, events: seq<Event>)
    requires Inv(limits, p) && Runs(limits, p, events)
    ensures Inv(limits, After(limits, p, events))
  {
    var n := |events|;
    if n == 0 {
    } else {
      RunKeepsInv(limits, p, events[..n - 1]);
      StepKeepsInv(limits, After(limits, p, events[..n - 1]), events[n - 1]);
    }
  }

  lemma NewIsSound(limits: Limits)
    ensures Inv(limits, New(limits))
  {
  }

  /** In every reachable state the connections counted active are at most the global permits held,
      and those at most the global limit; and each host semaphore bounds its own holders. */
  lemma LimitsHold(limits: Limits, events: seq<Event>)
    requires Runs(limits, New(limits), events)
    ensures var p := After(limits, New(limits), events);
            && p.active == Count(p.tasks, IsActive)
            && p.active <= Count(p.tasks, HoldsGlobal) <= limits.global
            && forall s | 0 <= s < |p.free| :: Count(p.tasks, HoldsSem(s)) <= limits.perHost
  {
    NewIsSound(limits);
    RunKeepsInv(limits, New(limits), events);
    var p := After(limits, New(limits), events);
    CountWider(p.tasks, IsActive, HoldsGlobal);
  }

  // ---- No deadlock ----

  /** Steps the pool takes by itself once a connection's owner lets go of it; a cleanup that has
      started also finishes. */
  predicate Progress(e: Event) {
    !e.Start? && !e.Cancel? && !e.FindIdle?
  }

  /** Finds a step for a task that already holds a global permit. */
  lemma HolderMoves(limits: Limits, p: Pool, i: nat) returns (e: Event)
    requires Inv(limits, p) && i < |p.tasks| && limits.perHost > 0
    requires Sat(p.tasks[i], HoldsGlobal) || p.tasks[i].phase.HostOnly?
    ensures Progress(e) && Enabled(p, e)
  {
    match p.tasks[i].phase
    case HasGlobal =>
      var h := p.tasks[i].host;
      e := if h in p.idle then RemoveIdle(h) else Lookup(i);
    case WaitingHost(s) =>
      if p.free[s] > 0 {
        e := TakeHost(i);
      } else {
        var j := Witness(p.tasks, HoldsSem(s));
        e := PermitMoves(limits, p, j);
      }
    case HasHost(_) => e := CountUp(i);
    case Active(_) => e := PermitMoves(limits, p, i);
    case Uncounted(_) => e := ReleaseGlobal(i);
    case HostOnly(_) => e := ReleaseHost(i);
  }

  /** A task with a host permit never waits for anything. */
  lemma PermitMoves(limits: Limits, p: Pool, i: nat) returns (e: Event)
    requires Inv(limits, p) && i < |p.tasks| && HasPermit(p.tasks[i].phase)
    ensures Progress(e) && Enabled(p, e)
  {
    match p.tasks[i].phase
    case HasHost(_) => e := CountUp(i);
    case Active(_) =>
      if p.active == 0 {
        NoneCounted(p.tasks, IsActive, i);
        assert false;
      }
      e := CountDown(i);
    case Uncounted(_) => e := ReleaseGlobal(i);
    case HostOnly(_) => e := ReleaseHost(i);
  }

  lemma {:induction false} NoneCounted(ts: seq<Task>, q: Mark, i: nat)
    requires i < |ts| && Sat(ts[i], q)
    ensures Count(ts, q) > 0
  {
    if i < |ts| - 1 {
      NoneCounted(ts[..|ts| - 1], q, i);
    }
  }

  /** With both limits positive no acquirer is ever stuck, although the ones that wait for their host
      hold global permits: while any task is unfinished, some task can move. */
  lemma NeverStuck(limits: Limits, p: Pool, i: nat) returns (e: Event)
    requires Inv(limits, p) && i < |p.tasks| && !p.tasks[i].phase.Gone?
    requires limits.global > 0 && limits.perHost > 0
    ensures Progress(e) && Enabled(p, e)
  {
    if !p.tasks[i].phase.WaitingGlobal? {
      e := HolderMoves(limits, p, i);
    } else if p.globalFree > 0 {
      e := TakeGlobal(i);
    } else {
      var j := Witness(p.tasks, HoldsGlobal);
      e := HolderMoves(limits, p, j);
    }
  }

  /** What is left to do. */
  function Remaining(phase: Phase): nat {
    match phase
    case WaitingGlobal => 7
    case HasGlobal => 6
    case WaitingHost(_) => 5
    case HasHost(_) => 4
    case Active(_) => 3
    case Uncounted(_) => 2
    case HostOnly(_) => 1
    case Gone => 0
  }

  function Work(ts: seq<Task>): nat {
    if |ts| == 0 then 0 else Work(ts[..|ts| - 1]) + Remaining(ts[|ts| - 1].phase)
  }

  lemma {:induction false} WorkUpdate(ts: seq<Task>, i: nat, t: Task)
    requires i < |ts|
    ensures Work(ts[i := t]) + Remaining(ts[i].phase) == Work(ts) + Remaining(t.phase)
  {
    var n := |ts|;
    var us := ts[i := t];
    if i == n - 1 {
      assert us[..n - 1] == ts[..n - 1];
    } else {
      WorkUpdate(ts[..n - 1], i, t);
      assert us[..n - 1] == ts[..n - 1][i := t];
    }
  }

  lemma ProgressShrinks(limits: Limits, p: Pool, e: Event)
    requires Enabled(p, e) && Progress(e)
    ensures Work(Step(limits, p, e).tasks) + |Step(limits, p, e).idle| < Work(p.tasks) + |p.idle|
  {
    hide Work;
    match e
    case TakeGlobal(i) => WorkUpdate(p.tasks, i, p.tasks[i].(phase := HasGlobal));
    case Lookup(i) =>
      var h := p.tasks[i].host;
      WorkUpdate(p.tasks, i, p.tasks[i].(phase := WaitingHost(if h in p.table then p.table[h] else |p.free|)));
    case TakeHost(i) => WorkUpdate(p.tasks, i, p.tasks[i].(phase := HasHost(p.tasks[i].phase.sem)));
    case CountUp(i) => WorkUpdate(p.tasks, i, p.tasks[i].(phase := Active(p.tasks[i].phase.sem)));
    case CountDown(i) => WorkUpdate(p.tasks, i, p.tasks[i].(phase := Uncounted(p.tasks[i].phase.sem)));
    case ReleaseGlobal(i) => WorkUpdate(p.tasks, i, p.tasks[i].(phase := HostOnly(p.tasks[i].phase.sem)));
    case ReleaseHost(i) => WorkUpdate(p.tasks, i, p.tasks[i].(phase := Gone));
    case RemoveIdle(h) =>
  }

  /** However the steps are scheduled, a run of progress steps is no longer than the work left. */
  lemma {:induction false} ProgressIsBounded(limits: Limits, p: Pool, events: seq<Event>)
    requires Runs(limits, p, events) && forall k | 0 <= k < |events| :: Progress(events[k])
    ensures var q := After(limits, p, events); |events| + Work(q.tasks) + |q.idle| <= Work(p.tasks) + |p.idle|
  {
    var n := |events|;
    if n == 0 {
    } else {
      ProgressIsBounded(limits, p, events[..n - 1]);
      ProgressShrinks(limits, After(limits, p, events[..n - 1]), events[n - 1]);
    }
  }

  /** When the acquirers and the owners have taken every step they can, everything is over: every
      acquire got its connection, and every permit is back. */
  lemma EverythingDrains(limits: Limits, events: seq<Event>)
    requires limits.global > 0 && limits.perHost > 0
    requires Runs(limits, New(limits), events)
    requires forall e | Progress(e) :: !Enabled(After(limits, New(limits), events), e)
    ensures var p := After(limits, New(limits), events);
            && (forall i | 0 <= i < |p.tasks| :: p.tasks[i].phase.Gone?)
            && p.globalFree == limits.global && p.active == 0
            && (forall s | 0 <= s < |p.free| :: p.free[s] == limits.perHost)
  {
    NewIsSound(limits);
    RunKeepsInv(limits, New(limits), events);
    var p := After(limits, New(limits), events);
    forall i | 0 <= i < |p.tasks|
      ensures p.tasks[i].phase.Gone?
    {
      if !p.tasks[i].phase.Gone? {
        var e := NeverStuck(limits, p, i);
        assert false;
      }
    }
    NobodyCounts(p.tasks, HoldsGlobal);
    NobodyCounts(p.tasks, IsActive);
    forall s | 0 <= s < |p.free|
      ensures p.free[s] == limits.perHost
    {
      NobodyCounts(p.tasks, HoldsSem(s));
    }
  }

  ghost predicate Stuck(p: Pool) {
    && (exists i :: 0 <= i < |p.tasks| && !p.tasks[i].phase.Gone?)
    && (forall e | Progress(e) :: !Enabled(p, e))
  }

  ghost predicate DeadlockFree(limits: Limits) {
    forall events | Runs(limits, New(limits), events) :: !Stuck(After(limits, New(limits), events))
  }

  /** The pool is free of deadlock exactly when both limits are positive. */
  lemma DeadlockFreeIff(limits: Limits)
    ensures DeadlockFree(limits) <==> limits.global > 0 && limits.perHost > 0
  {
    if limits.global > 0 && limits.perHost > 0 {
      forall events | Runs(limits, New(limits), events)
        ensures !Stuck(After(limits, New(limits), events))
      {
        NewIsSound(limits);
        RunKeepsInv(limits, New(limits), events);
        var p := After(limits, New(limits), events);
        if Stuck(p) {
          var i :| 0 <= i < |p.tasks| && !p.tasks[i].phase.Gone?;
          var e := NeverStuck(limits, p, i);
          assert false;
        }
      }
    } else {
      var events := ZeroLimitDeadlocks(limits);
      assert Stuck(After(limits, New(limits), events));
    }
  }

  /** With a limit of zero one acquirer is enough to hang. */
  lemma ZeroLimitDeadlocks(limits: Limits) returns (events: seq<Event>)
    requires limits.global == 0 || limits.perHost == 0
    ensures Runs(limits, New(limits), events) && Stuck(After(limits, New(limits), events))
  {
    var p0 := New(limits);
    RunsSnoc(limits, p0, [], Start(0));
    var p1 := Step(limits, p0, Start(0));
    events := [Start(0)];
    assert [] + [Start(0)] == events;
    if limits.global == 0 {
      assert !p1.tasks[0].phase.Gone?;
      return;
    }
    RunsSnoc(limits, p0, events, TakeGlobal(0));
    events := events + [TakeGlobal(0)];
    var p2 := Step(limits, p1, TakeGlobal(0));
    RunsSnoc(limits, p0, events, Lookup(0));
    events := events + [Lookup(0)];
    var p3 := Step(limits, p2, Lookup(0));
    assert p3 == Pool(limits.global - 1, 0, map[0 := 0], [0], {}, [Task(0, WaitingHost(0))]);
    assert !p3.tasks[0].phase.Gone?;
  }

  lemma RunsSnoc(limits: Limits, p: Pool, events: seq<Event>, e: Event)
    requires Runs(limits, p, events) && Enabled(After(limits, p, events), e)
    ensures Runs(limits, p, events + [e])
    ensures After(limits, p, events + [e]) == Step(limits, After(limits, p, events), e)
  {
    assert (events + [e])[..|events|] == events;
  }

  // ---- The limit per host ----

  /** Every task of the host that knows a semaphore knows the one in the table; while a cleanup is
      removing the entry nobody does. */
  ghost predicate Attached(p: Pool, h: Host) {
    forall i | 0 <= i < |p.tasks| :: p.tasks[i].host == h && HasSem(p.tasks[i].phase)
      ==> h in p.table && h !in p.idle && p.tasks[i].phase.sem == p.table[h]
  }

  predicate BetweenLookupAndPermit(p: Pool, h: Host) {
    exists i :: 0 <= i < |p.tasks| && p.tasks[i].host == h && p.tasks[i].phase.WaitingHost?
  }

  /** A step detaches a task of the host exactly when it is a cleanup that finds the host's entry
      idle while one of the host's acquirers is between its lookup and its permit. */
  lemma DetachedIff(limits: Limits, p: Pool, e: Event, h: Host)
    requires Inv(limits, p) && Enabled(p, e) && Attached(p, h)
    ensures Attached(Step(limits, p, e), h)
       <==> !(e == FindIdle(h) && p.free[p.table[h]] >= limits.perHost && BetweenLookupAndPermit(p, h))
  {
    hide Count;
    var r := Step(limits, p, e);
    if e == FindIdle(h) {
      if p.free[p.table[h]] >= limits.perHost {
        var s := p.table[h];
        forall i | 0 <= i < |p.tasks| && p.tasks[i].host == h
          ensures !HasPermit(p.tasks[i].phase)
        {
          if HasPermit(p.tasks[i].phase) {
            NoneCounted(p.tasks, HoldsSem(s), i);
            assert false;
          }
        }
      }
    } else {
      forall i | 0 <= i < |r.tasks| && r.tasks[i].host == h && HasSem(r.tasks[i].phase)
        ensures h in r.table && h !in r.idle && r.tasks[i].phase.sem == r.table[h]
      {
        if i < |p.tasks| {
          assert p.tasks[i].host == h;
        }
      }
    }
  }

  lemma AttachedBound(limits: Limits, p: Pool, h: Host)
    requires Inv(limits, p) && Attached(p, h)
    ensures Count(p.tasks, HoldsHost(h)) <= limits.perHost
  {
    if h in p.table {
      CountWider(p.tasks, HoldsHost(h), HoldsSem(p.table[h]));
    } else {
      NobodyCounts(p.tasks, HoldsHost(h));
    }
  }

  /** No cleanup of the run finds the host idle between a lookup and its permit; finding it busy is
      harmless. */
  ghost predicate CleanupKeepsClear(limits: Limits, p: Pool, events: seq<Event>, h: Host)
    requires Runs(limits, p, events)
  {
    var n := |events|;
    n == 0
    || (&& CleanupKeepsClear(limits, p, events[..n - 1], h)
        && var q := After(limits, p, events[..n - 1]);
           (events[n - 1] == FindIdle(h) && q.free[q.table[h]] >= limits.perHost ==> !BetweenLookupAndPermit(q, h)))
  }

  /** The limit per host holds through any run whose cleanups keep clear of the host's acquirers. */
  lemma {:induction false} HostLimitHolds(limits: Limits, events: seq<Event>, h: Host)
    requires Runs(limits, New(limits), events) && CleanupKeepsClear(limits, New(limits), events, h)
    ensures Attached(After(limits, New(limits), events), h)
    ensures Count(After(limits, New(limits), events).tasks, HoldsHost(h)) <= limits.perHost
  {
    var n := |events|;
    NewIsSound(limits);
    RunKeepsInv(limits, New(limits), events);
    if n == 0 {
    } else {
      HostLimitHolds(limits, events[..n - 1], h);
      RunKeepsInv(limits, New(limits), events[..n - 1]);
      DetachedIff(limits, After(limits, New(limits), events[..n - 1]), events[n - 1], h);
    }
    AttachedBound(limits, After(limits, New(limits), events), h);
  }

  /** The limit per host as a promise for every run, cleanups at any time included. */
  ghost predicate HostLimitAlways(limits: Limits) {
    forall events, h: Host | Runs(limits, New(limits), events) ::
      Count(After(limits, New(limits), events).tasks, ActiveOn(h)) <= limits.perHost
  }

  /** The promise holds exactly for the limits that leave the host semaphore nothing to do: a global
      limit within the limit per host, or no connection at all. */
  lemma HostLimitUnderCleanupIff(limits: Limits)
    ensures HostLimitAlways(limits) <==> limits.perHost == 0 || limits.global <= limits.perHost
  {
    if limits.perHost == 0 || limits.global <= limits.perHost {
      forall events, h: Host | Runs(limits, New(limits), events)
        ensures Count(After(limits, New(limits), events).tasks, ActiveOn(h)) <= limits.perHost
      {
        LimitsHold(limits, events);
        var p := After(limits, New(limits), events);
        CountWider(p.tasks, ActiveOn(h), IsActive);
        if Count(p.tasks, ActiveOn(h)) > 0 {
          var i := Witness(p.tasks, ActiveOn(h));
          NewIsSound(limits);
          RunKeepsInv(limits, New(limits), events);
          NoneCounted(p.tasks, HoldsSem(p.tasks[i].phase.sem), i);
        }
      }
    } else {
      var events := CleanupBreaksTheLimit(limits);
      assert Runs(limits, New(limits), events);
      assert Count(After(limits, New(limits), events).tasks, ActiveOn(0)) > limits.perHost;
    }
  }

  /** Acquirer 0 looks its host up, a cleanup drops the idle entry, and `k` later acquirers get the
      permits of a new semaphore. */
  function Doubled(limits: Limits, k: nat): Pool
    requires k <= limits.perHost && k < limits.global
  {
    Pool(limits.global - 1 - k, k, map[0 := 1], [limits.perHost, limits.perHost - k], {},
         [Task(0, WaitingHost(0))] + seq(k, _ => Task(0, Active(1))))
  }

  lemma DoubledCount(limits: Limits, k: nat)
    requires k <= limits.perHost && k < limits.global
    ensures Count(Doubled(limits, k).tasks, ActiveOn(0)) == k
  {
    var ts := Doubled(limits, k).tasks;
    if k == 0 {
      assert ts[..0] == [];
    } else {
      DoubledCount(limits, k - 1);
      assert ts[..k] == Doubled(limits, k - 1).tasks;
    }
  }

  /** A run that is one step longer. */
  lemma Snoc(limits: Limits, b: Pool, events: seq<Event>, e: Event, p: Pool) returns (more: seq<Event>)
    requires Runs(limits, b, events) && After(limits, b, events) == p && Enabled(p, e)
    ensures Runs(limits, b, more) && After(limits, b, more) == Step(limits, p, e)
  {
    RunsSnoc(limits, b, events, e);
    more := events + [e];
  }

  lemma FirstIsDetached(limits: Limits) returns (events: seq<Event>)
    requires limits.perHost > 0 && limits.global > 1
    ensures Runs(limits, New(limits), events)
    ensures After(limits, New(limits), events)
         == Pool(limits.global - 1, 0, map[], [limits.perHost], {}, [Task(0, WaitingHost(0))])
  {
    hide Runs, After;
    var p0 := New(limits);
    EmptyRunFrom(limits, New(limits));
    events := Snoc(limits, New(limits), [], Start(0), p0);
    var p1 := Step(limits, p0, Start(0));
    events := Snoc(limits, New(limits), events, TakeGlobal(0), p1);
    var p2 := Step(limits, p1, TakeGlobal(0));
    events := Snoc(limits, New(limits), events, Lookup(0), p2);
    var p3 := Step(limits, p2, Lookup(0));
    assert p3 == Pool(limits.global - 1, 0, map[0 := 0], [limits.perHost], {}, [Task(0, WaitingHost(0))]);
    events := Snoc(limits, New(limits), events, FindIdle(0), p3);
    var p4 := Step(limits, p3, FindIdle(0));
    events := Snoc(limits, New(limits), events, RemoveIdle(0), p4);
  }

  /** One more acquirer of host 0 goes all the way to an active connection. */
  lemma {:induction false} OneMore(limits: Limits, events: seq<Event>, p: Pool, k: nat, sem: nat) returns (more: seq<Event>)
    requires Runs(limits, New(limits), events) && After(limits, New(limits), events) == p
    requires |p.tasks| == k && p.globalFree > 0 && |p.idle| == 0
    requires if 0 in p.table then sem == p.table[0] < |p.free| && p.free[sem] > 0
             else sem == |p.free| && limits.perHost > 0
    ensures Runs(limits, New(limits), more)
    ensures var r := After(limits, New(limits), more);
            && r.globalFree == p.globalFree - 1 && r.active == p.active + 1 && r.idle == p.idle
            && r.table == p.table[0 := sem] && r.tasks == p.tasks + [Task(0, Active(sem))]
            && r.free == if 0 in p.table then p.free[sem := p.free[sem] - 1] else p.free + [limits.perHost - 1]
  {
    hide Runs, After;
    more := Snoc(limits, New(limits), events, Start(0), p);
    var p1 := Step(limits, p, Start(0));
    more := Snoc(limits, New(limits), more, TakeGlobal(k), p1);
    var p2 := Step(limits, p1, TakeGlobal(k));
    assert p2.tasks == p.tasks + [Task(0, HasGlobal)];
    more := Snoc(limits, New(limits), more, Lookup(k), p2);
    var p3 := Step(limits, p2, Lookup(k));
    assert p3.tasks == p.tasks + [Task(0, WaitingHost(sem))];
    more := Snoc(limits, New(limits), more, TakeHost(k), p3);
    var p4 := Step(limits, p3, TakeHost(k));
    assert p4.tasks == p.tasks + [Task(0, HasHost(sem))];
    more := Snoc(limits, New(limits), more, CountUp(k), p4);
    assert Step(limits, p4, CountUp(k)).tasks == p.tasks + [Task(0, Active(sem))];
  }

  lemma {:induction false} Double(limits: Limits, k: nat) returns (events: seq<Event>)
    requires 1 <= k <= limits.perHost < limits.global
    ensures Runs(limits, New(limits), events) && After(limits, New(limits), events) == Doubled(limits, k)
  {
    hide Runs, After;
    if k == 1 {
      events := FirstIsDetached(limits);
      var p := Pool(limits.global - 1, 0, map[], [limits.perHost], {}, [Task(0, WaitingHost(0))]);
      events := OneMore(limits, events, p, 1, 1);
    } else {
      events := Double(limits, k - 1);
      events := OneMore(limits, events, Doubled(limits, k - 1), k, 1);
    }
    assert After(limits, New(limits), events).tasks == Doubled(limits, k).tasks;
  }

  /** One connection more than the limit per host allows: the acquirer whose semaphore was dropped
      still gets a permit from it. */
  lemma {:induction false} CleanupBreaksTheLimit(limits: Limits) returns (events: seq<Event>)
    requires 1 <= limits.perHost < limits.global
    ensures Runs(limits, New(limits), events)
    ensures Count(After(limits, New(limits), events).tasks, ActiveOn(0)) == limits.perHost + 1
  {
    hide Runs, After, Count;
    var k := limits.perHost;
    events := Double(limits, k);
    var p := Doubled(limits, k);
    events := Snoc(limits, New(limits), events, TakeHost(0), p);
    var p1 := Step(limits, p, TakeHost(0));
    events := Snoc(limits, New(limits), events, CountUp(0), p1);
    var p2 := Step(limits, p1, CountUp(0));
    DoubledCount(limits, k);
    CountUpdate(p.tasks, 0, Task(0, Active(0)), ActiveOn(0));
    assert p2.tasks == p.tasks[0 := Task(0, Active(0))];
  }

  // ---- Giving up ----

  /** An acquire can be given up wherever it waits. Whoever has no permit yet leaves everything as it
      was, and whoever waits for its host gives the global permit back. */
  lemma CancelGivesBack(limits: Limits, p: Pool, i: nat)
    requires Inv(limits, p) && i < |p.tasks| && (p.tasks[i].phase.WaitingGlobal? || p.tasks[i].phase.WaitingHost?)
    ensures Enabled(p, Cancel(i))
    ensures var r := Step(limits, p, Cancel(i));
            && Inv(limits, r) && r.tasks == p.tasks[i := Task(p.tasks[i].host, Gone)]
            && r.globalFree == p.globalFree + Bit(p.tasks[i], HoldsGlobal)
            && r.free == p.free && r.table == p.table && r.active == p.active && r.idle == p.idle
  {
    StepKeepsInv(limits, p, Cancel(i));
  }

  // ---- The pool itself ----

  class ConnectionPool {
    const limits: Limits
    const cleanupThreshold: nat
    var globalFree: nat
    var active: nat
    var table: map<Host, nat>
    var free: seq<nat>
    var tasks: seq<Task>

    ghost function Snapshot(): Pool
      reads this
    {
      Pool(globalFree, active, table, free, {}, tasks)
    }

    constructor (limits: Limits)
      ensures this.limits == limits && cleanupThreshold == Arithmetic.Max(2 * limits.global, 64)
      ensures Snapshot() == New(limits) && Inv(limits, Snapshot())
    {
      this.limits := limits;
      cleanupThreshold := Arithmetic.Max(2 * limits.global, 64);
      globalFree, active, table, free, tasks := limits.global, 0, map[], [], [];
    }

    /** Drops the entries of the hosts nobody has a permit from. */
    method CleanupIdleHosts() returns (ghost events: seq<Event>)
      requires Inv(limits, Snapshot())
      modifies this`table
      ensures Runs(limits, old(Snapshot()), events) && After(limits, old(Snapshot()), events) == Snapshot()
      ensures forall h :: h in table <==> h in old(table) && old(table)[h] < |free| && free[old(table)[h]] < limits.perHost
      ensures forall h | h in table :: table[h] == old(table)[h]
    {
      hide Inv, Runs, After;
      events := [];
      ghost var before := Snapshot();
      EmptyRunFrom(limits, before);
      var hosts := table.Keys;
      while |hosts| != 0
        invariant hosts <= table.Keys <= before.table.Keys
        invariant Snapshot() == before.(table := table)
        invariant Inv(limits, Snapshot())
        invariant Runs(limits, before, events) && After(limits, before, events) == Snapshot()
        invariant forall h | h in before.table && h !in table ::
                    before.table[h] < |free| && free[before.table[h]] >= limits.perHost
        invariant forall h | h in table && h !in hosts ::
                    before.table[h] < |free| && free[before.table[h]] < limits.perHost
        invariant forall h | h in table :: table[h] == before.table[h]
      {
        var h :| h in hosts;
        hosts := hosts - {h};
        TableIsSound(limits, Snapshot(), h);
        if free[table[h]] >= limits.perHost {
          RunsSnoc(limits, before, events, FindIdle(h));
          StepKeepsInv(limits, Snapshot(), FindIdle(h));
          ghost var found := Step(limits, Snapshot(), FindIdle(h));
          events := events + [FindIdle(h)];
          RunsSnoc(limits, before, events, RemoveIdle(h));
          StepKeepsInv(limits, found, RemoveIdle(h));
          events := events + [RemoveIdle(h)];
          table := table - {h};
          assert Step(limits, found, RemoveIdle(h)) == Snapshot();
        }
      }
    }

    /** Runs an `acquire` until it has its connection or has to wait for a permit. */
    method Poll(i: nat) returns (ready: bool, ghost events: seq<Event>)
      requires Inv(limits, Snapshot())
      requires i < |tasks| && (tasks[i].phase.WaitingGlobal? || tasks[i].phase.WaitingHost?)
      modifies this
      ensures Runs(limits, old(Snapshot()), events) && After(limits, old(Snapshot()), events) == Snapshot()
      ensures Inv(limits, Snapshot())
      ensures |tasks| == |old(tasks)| && tasks == old(tasks)[i := tasks[i]] && tasks[i].host == old(tasks[i].host)
      ensures ready <==> tasks[i].phase.Active?
      ensures active == old(active) + if ready then 1 else 0
      ensures !ready ==> Blocked(i)
      ensures ready ==>
                var host := old(tasks[i].host);
                var seen := if old(tasks[i].phase.WaitingHost?) || host in old(table) then old(table)
                            else old(table)[host := |old(free)|];
                if |seen| <= cleanupThreshold then table == seen
                else forall h :: h in table <==> h in seen && seen[h] < |free| && free[seen[h]] < limits.perHost
    {
      hide Inv, Runs, After, Enabled, Step;
      ghost var before := Snapshot();
      EmptyRunFrom(limits, before);
      events := [];
      if tasks[i].phase.WaitingGlobal? {
        if globalFree == 0 {
          return false, events;
        }
        events := Enter(i);
      }
      SemIsSound(limits, Snapshot(), i);
      if free[tasks[i].phase.sem] == 0 {
        return false, events;
      }
      ghost var middle := Snapshot();
      ghost var granted := Activate(i);
      RunsConcat(limits, before, events, middle, granted);
      events := events + granted;
      if |table| > cleanupThreshold {
        middle := Snapshot();
        granted := CleanupIdleHosts();
        RunsConcat(limits, before, events, middle, granted);
        RunKeepsInv(limits, middle, granted);
        events := events + granted;
      }
      ready := true;
    }

    /** Takes a global permit and looks the host's semaphore up. */
    method Enter(i: nat) returns (ghost events: seq<Event>)
      requires Inv(limits, Snapshot()) && i < |tasks| && tasks[i].phase.WaitingGlobal? && globalFree > 0
      modifies this`globalFree, this`table, this`free, this`tasks
      ensures Runs(limits, old(Snapshot()), events) && After(limits, old(Snapshot()), events) == Snapshot()
      ensures Inv(limits, Snapshot())
      ensures |tasks| == |old(tasks)| && tasks == old(tasks)[i := tasks[i]] && tasks[i].host == old(tasks[i].host)
      ensures tasks[i].phase.WaitingHost?
      ensures var host := old(tasks[i].host);
              table == if host in old(table) then old(table) else old(table)[host := |old(free)|]
    {
      events := LookupRun(limits, Snapshot(), i);
      RunKeepsInv(limits, Snapshot(), events);
      hide Inv, Runs, After, Enabled, Step;
      globalFree := globalFree - 1;
      var sem := HostSemaphore(tasks[i].host);
      tasks := tasks[i := tasks[i].(phase := WaitingHost(sem))];
    }

    /** Takes a permit of the host and counts the connection. */
    method Activate(i: nat) returns (ghost events: seq<Event>)
      requires Inv(limits, Snapshot()) && i < |tasks| && tasks[i].phase.WaitingHost?
      requires tasks[i].phase.sem < |free| && free[tasks[i].phase.sem] > 0
      modifies this`active, this`free, this`tasks
      ensures Runs(limits, old(Snapshot()), events) && After(limits, old(Snapshot()), events) == Snapshot()
      ensures Inv(limits, Snapshot())
      ensures tasks == old(tasks)[i := Task(old(tasks[i].host), Active(old(tasks[i].phase.sem)))] && active == old(active) + 1
    {
      events := PermitRun(limits, Snapshot(), i);
      RunKeepsInv(limits, Snapshot(), events);
      hide Inv, Runs, After, Enabled, Step;
      var sem := tasks[i].phase.sem;
      free := free[sem := free[sem] - 1];
      active := active + 1;
      tasks := tasks[i := tasks[i].(phase := Active(sem))];
    }

    ghost predicate Blocked(i: nat)
      requires i < |tasks|
      reads this
    {
      match tasks[i].phase
      case WaitingGlobal => globalFree == 0
      case WaitingHost(s) => s < |free| && free[s] == 0
      case _ => false
    }

    method HostSemaphore(host: Host) returns (sem: nat)
      modifies this`table, this`free
      ensures host in old(table) ==> sem == old(table)[host] && table == old(table) && free == old(free)
      ensures host !in old(table) ==>
                sem == |old(free)| && table == old(table)[host := sem] && free == old(free) + [limits.perHost]
    {
      if host in table {
        return table[host];
      }
      sem := |free|;
      free := free + [limits.perHost];
      table := table[host := sem];
    }

    /** Dropping a `ConnectionPermit` gives back exactly what its `acquire` took. */
    method Drop(i: nat) returns (ghost events: seq<Event>)
      requires Inv(limits, Snapshot()) && i < |tasks| && tasks[i].phase.Active?
      modifies this
      ensures Runs(limits, old(Snapshot()), events) && After(limits, old(Snapshot()), events) == Snapshot()
      ensures Inv(limits, Snapshot())
      ensures active == old(active) - 1 && globalFree == old(globalFree) + 1 && table == old(table)
      ensures var s := old(tasks[i].phase.sem);
              s < |old(free)| && free == old(free)[s := old(free)[s] + 1]
      ensures tasks == old(tasks)[i := Task(old(tasks[i].host), Gone)]
    {
      SemIsSound(limits, Snapshot(), i);
      NoneCounted(tasks, IsActive, i);
      events := DropRun(limits, Snapshot(), i);
      RunKeepsInv(limits, Snapshot(), events);
      hide Inv, Runs, After, Enabled, Step;
      var sem := tasks[i].phase.sem;
      active := active - 1;
      globalFree := globalFree + 1;
      free := free[sem := free[sem] + 1];
      tasks := tasks[i := tasks[i].(phase := Gone)];
    }
  }

  lemma AtTwice(p: Pool, i: nat, a: Phase, b: Phase)
    requires i < |p.tasks|
    ensures p.tasks[i := p.tasks[i].(phase := a)][i := p.tasks[i].(phase := b)] == At(p, i, b).tasks
  {
  }

  /** The first half of an uncontended acquire: the global permit and the host's semaphore. */
  lemma LookupRun(limits: Limits, p: Pool, i: nat) returns (events: seq<Event>)
    requires i < |p.tasks| && p.tasks[i].phase.WaitingGlobal? && p.globalFree > 0 && |p.idle| == 0
    ensures var h := p.tasks[i].host;
            var sem := if h in p.table then p.table[h] else |p.free|;
            && Runs(limits, p, events)
            && After(limits, p, events) == At(p, i, WaitingHost(sem)).(globalFree := p.globalFree - 1,
                 table := if h in p.table then p.table else p.table[h := sem],
                 free := if h in p.table then p.free else p.free + [limits.perHost])
  {
    hide Runs, After;
    EmptyRunFrom(limits, p);
    events := Snoc(limits, p, [], TakeGlobal(i), p);
    events := Snoc(limits, p, events, Lookup(i), Step(limits, p, TakeGlobal(i)));
    var h := p.tasks[i].host;
    AtTwice(p, i, HasGlobal, WaitingHost(if h in p.table then p.table[h] else |p.free|));
  }

  /** The second half: the host's permit, and the connection is active. */
  lemma PermitRun(limits: Limits, p: Pool, i: nat) returns (events: seq<Event>)
    requires i < |p.tasks| && p.tasks[i].phase.WaitingHost?
    requires p.tasks[i].phase.sem < |p.free| && p.free[p.tasks[i].phase.sem] > 0
    ensures var s := p.tasks[i].phase.sem;
            && Runs(limits, p, events)
            && After(limits, p, events) == At(p, i, Active(s)).(active := p.active + 1, free := p.free[s := p.free[s] - 1])
  {
    hide Runs, After;
    EmptyRunFrom(limits, p);
    events := Snoc(limits, p, [], TakeHost(i), p);
    events := Snoc(limits, p, events, CountUp(i), Step(limits, p, TakeHost(i)));
    AtTwice(p, i, HasHost(p.tasks[i].phase.sem), Active(p.tasks[i].phase.sem));
  }

  /** Dropping a permit: the count, the global permit, the host's permit. */
  lemma DropRun(limits: Limits, p: Pool, i: nat) returns (events: seq<Event>)
    requires i < |p.tasks| && p.tasks[i].phase.Active? && p.active > 0 && p.tasks[i].phase.sem < |p.free|
    ensures var s := p.tasks[i].phase.sem;
            && Runs(limits, p, events)
            && After(limits, p, events) == At(p, i, Gone).(active := p.active - 1, globalFree := p.globalFree + 1,
                 free := p.free[s := p.free[s] + 1])
  {
    hide Runs, After;
    var sem := p.tasks[i].phase.sem;
    EmptyRunFrom(limits, p);
    events := Snoc(limits, p, [], CountDown(i), p);
    var q := Step(limits, p, CountDown(i));
    events := Snoc(limits, p, events, ReleaseGlobal(i), q);
    var r := Step(limits, q, ReleaseGlobal(i));
    AtTwice(p, i, Uncounted(sem), HostOnly(sem));
    events := Snoc(limits, p, events, ReleaseHost(i), r);
    AtTwice(p, i, HostOnly(sem), Gone);
  }

  lemma EmptyRunFrom(limits: Limits, p: Pool)
    ensures Runs(limits, p, []) && After(limits, p, []) == p
  {
  }

  lemma RunsInit(limits: Limits, p: Pool, events: seq<Event>)
    requires Runs(limits, p, events) && |events| > 0
    ensures var init, last := events[..|events| - 1], events[|events| - 1];
            && Runs(limits, p, init) && Enabled(After(limits, p, init), last)
            && After(limits, p, events) == Step(limits, After(limits, p, init), last)
  {
  }

  lemma {:induction false} RunsConcat(limits: Limits, p: Pool, first: seq<Event>, q: Pool, second: seq<Event>)
    requires Runs(limits, p, first) && After(limits, p, first) == q && Runs(limits, q, second)
    ensures Runs(limits, p, first + second) && After(limits, p, first + second) == After(limits, q, second)
    decreases |second|
  {
    hide Runs, After, Enabled, Step;
    var n := |second|;
    if n == 0 {
      assert first + second == first && second == [];
      EmptyRunFrom(limits, q);
    } else {
      var init := second[..n - 1];
      RunsInit(limits, q, second);
      RunsConcat(limits, p, first, q, init);
      RunsSnoc(limits, p, first + init, second[n - 1]);
      assert first + second == (first + init) + [second[n - 1]];
    }
  }
}
