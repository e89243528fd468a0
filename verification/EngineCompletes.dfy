/** Success is within reach: the promises the engine makes about completed sessions are not made
    about sessions that never complete. */
module EngineCompletes {
  import opened ByteStore
  import opened FragmentAttempt
  import opened Planner
  import opened Engine
  import opened Sessions

  /** The remote bytes of fragment `i`. */
  function Remote(cfg: Config, i: nat): Bytes
    requires i < |cfg.frags| && Start(cfg, i) + Len(cfg, i) <= |cfg.source|
  {
    cfg.source[Start(cfg, i)..Start(cfg, i) + Len(cfg, i)]
  }

  /** `r` differs from `s` in what worker `i` does, in its record, and in the disk. */
  predicate OnlyWorker(cfg: Config, s: State, r: State, i: nat) {
    && |s.workers| == |r.workers| == |cfg.frags| == |s.records| == |r.records| && i < |cfg.frags|
    && s.driver.Running? && r.driver.Running?
    && r.workers == s.workers[i := r.workers[i]] && r.records == s.records[i := r.records[i]]
  }

  lemma RemoteIsServed(cfg: Config, i: nat)
    requires i < |cfg.frags| && Start(cfg, i) + Len(cfg, i) <= |cfg.source|
    ensures Served(cfg, i, [] + Remote(cfg, i))
  {
    var data, start, source := Remote(cfg, i), Start(cfg, i), cfg.source;
    assert [] + data == data;
    forall j | 0 <= j < |data|
      ensures data[j] == source[start + j]
    {
      SliceAt(source, start, |data|, j);
    }
  }

  lemma SliceAt(source: Bytes, start: nat, n: nat, j: nat)
    requires start + n <= |source| && j < n
    ensures source[start..start + n][j] == source[start + j]
  {
  }

  /** `r` differs from `s` in the phase of worker `i`, which is `p`, and in the disk. */
  predicate OnlyPhase(cfg: Config, s: State, r: State, i: nat, p: Phase) {
    && OnlyWorker(cfg, s, r, i) && r.free == s.free && r.records == s.records
    && r.workers[i] == s.workers[i].(phase := p)
  }

  /** One more event of an attempt under way. */
  lemma Move(cfg: Config, b: State, events: seq<Event>, s: State, i: nat, a: Attempt, delivered: Bytes, ev: AttemptEvent)
    returns (more: seq<Event>)
    requires |b.workers| == |cfg.frags| == |b.records| && i < |cfg.frags|
    requires OnlyPhase(cfg, s, RunEvents(cfg, b, events), i, Active(a, delivered))
    requires !Terminal(a) && !ev.Interrupt? && (ev.Chunk? ==> Served(cfg, i, delivered + ev.data))
    ensures OnlyPhase(cfg, s, RunEvents(cfg, b, more), i,
                      Active(NextAttempt(Len(cfg, i), a, ev),
                             if a.Reading? && ev.Chunk? then delivered + ev.data else delivered))
  {
    hide RunEvents, NextAttempt, Served, Overlay;
    more := events + [Io(i, ev)];
    RunAppend(cfg, b, events, Io(i, ev));
  }

  /** A dishonest stream may deliver anything at all: the promises made beside such streams are not
      empty either. */
  lemma AnythingMayCome(cfg: Config, s: State, i: nat, data: Bytes)
    requires i < |s.workers| == |cfg.frags| == |s.records| && i !in cfg.honest
    requires s.workers[i].phase.Active? && s.workers[i].phase.attempt.Reading?
    ensures var p := Engine.Step(cfg, s, Io(i, Chunk(data))).workers[i].phase;
            p.Active? && p.delivered == s.workers[i].phase.delivered + data
  {
    hide Overlay, Served;
  }

  /** A fragment whose stream comes in one piece, and whose write goes through at once, succeeds. */
  lemma StreamComes(cfg: Config, b: State, events: seq<Event>, s: State, i: nat) returns (more: seq<Event>)
    requires |b.workers| == |cfg.frags| == |b.records| && i < |cfg.frags|
    requires OnlyPhase(cfg, s, RunEvents(cfg, b, events), i, Active(Connecting, []))
    requires Start(cfg, i) + Len(cfg, i) <= |cfg.source| && Len(cfg, i) > 0
    ensures OnlyPhase(cfg, s, RunEvents(cfg, b, more), i, Active(Succeeded(Len(cfg, i)), Remote(cfg, i)))
  {
    hide RunEvents, Served, OnlyPhase;
    var data, n := Remote(cfg, i), Len(cfg, i);
    RemoteIsServed(cfg, i);
    assert [] + data == data && data[n..] == [];
    more := Move(cfg, b, events, s, i, Connecting, [], Connected);
    more := Move(cfg, b, more, s, i, Reading(0, []), [], Chunk(data));
    if n >= WRITE_BATCH_BYTES {
      more := Move(cfg, b, more, s, i, Flushing(0, data, false), data, Persist(n));
      more := Move(cfg, b, more, s, i, Reading(n, []), data, StreamEnd);
    } else {
      more := Move(cfg, b, more, s, i, Reading(0, data), data, StreamEnd);
      more := Move(cfg, b, more, s, i, Flushing(0, data, true), data, Persist(n));
    }
  }

  /** A worker at the start of a round can be brought to success in that round. */
  lemma Succeeds(cfg: Config, b: State, events: seq<Event>, s: State, i: nat) returns (more: seq<Event>, r: State)
    requires |b.workers| == |cfg.frags| == |b.records| && RunEvents(cfg, b, events) == s
    requires i < |cfg.frags| && OnlyWorker(cfg, s, s, i) && s.workers[i].phase.Deciding? && s.free > 0
    requires Start(cfg, i) + Len(cfg, i) <= |cfg.source| && Len(cfg, i) > 0
    ensures RunEvents(cfg, b, more) == r && OnlyWorker(cfg, s, r, i) && r.free == s.free && r.records == s.records
    ensures var w := s.workers[i]; r.workers[i] == Worker(w.attempt, w.tries + 1, w.slept, Exited(Outcome.Done(Len(cfg, i))))
  {
    hide RunEvents, StepIo, Tiled;
    RunAppend(cfg, b, events, BreakerSays(i, true));
    var s1 := Engine.Step(cfg, s, BreakerSays(i, true));
    more := events + [BreakerSays(i, true)];
    RunAppend(cfg, b, more, GrantPermit(i));
    var s2 := Engine.Step(cfg, s1, GrantPermit(i));
    more := more + [GrantPermit(i)];
    more := StreamComes(cfg, b, more, s2, i);
    var s3 := RunEvents(cfg, b, more);
    RunAppend(cfg, b, more, Settle(i));
    r := Engine.Step(cfg, s3, Settle(i));
    more := more + [Settle(i)];
  }

  /** A worker that has not started yet can be brought to its end and joined. */
  lemma WorkerFinishes(cfg: Config, b: State, events: seq<Event>, s: State, i: nat) returns (more: seq<Event>, r: State)
    requires |b.workers| == |cfg.frags| == |b.records| && RunEvents(cfg, b, events) == s
    requires i < |cfg.frags| && OnlyWorker(cfg, s, s, i) && s.workers[i].phase.Deciding? && s.free > 0
    requires s.records[i].state == Downloading
    requires Start(cfg, i) + Len(cfg, i) <= |cfg.source| && Len(cfg, i) > 0
    ensures RunEvents(cfg, b, more) == r && OnlyWorker(cfg, s, r, i) && r.free == s.free
    ensures r.workers[i].phase.Joined?
  {
    hide RunEvents;
    var s1: State;
    more, s1 := Succeeds(cfg, b, events, s, i);
    RunAppend(cfg, b, more, Join(i));
    r := Engine.Step(cfg, s1, Join(i));
    more := more + [Join(i)];
  }

  /** The first `k` workers are joined, the others have not started. */
  predicate Ready(cfg: Config, s: State, k: nat) {
    && |s.workers| == |cfg.frags| == |s.records| && k <= |cfg.frags|
    && s.driver.Running? && s.free == cfg.permits
    && (forall i | 0 <= i < k :: s.workers[i].phase.Joined?)
    && (forall i | k <= i < |s.workers| ::
          s.workers[i].phase.Joined? || (s.workers[i].phase.Deciding? && s.records[i].state == Downloading))
  }

  lemma {:induction false} FirstFinish(cfg: Config, b: State, k: nat) returns (events: seq<Event>)
    requires Ready(cfg, b, 0) && Tiled(cfg.frags, |cfg.source|) && cfg.permits > 0 && k <= |cfg.frags|
    ensures Ready(cfg, RunEvents(cfg, b, events), k)
  {
    if k == 0 {
      events := [];
    } else {
      events := FirstFinish(cfg, b, k - 1);
      hide RunEvents, Tiled;
      var s := RunEvents(cfg, b, events);
      TilesEndInside(cfg.frags, |cfg.source|, k - 1);
      if !s.workers[k - 1].phase.Joined? {
        var r: State;
        events, r := WorkerFinishes(cfg, b, events, s, k - 1);
      }
    }
  }

  /** From every truthful checkpoint, whatever is left to download and whatever writes of earlier
      sessions are still pending, some run completes, provided the semaphore has a permit; when there
      is something left, only then. */
  lemma CanCompleteIff(cfg: Config, c: Checkpoint)
    requires Truthful(cfg, c)
    ensures (exists events :: RunEvents(cfg, Resume(cfg, c), events).driver.Completed?)
       <==> cfg.permits > 0 || (forall i | 0 <= i < |cfg.frags| :: i in c.completed)
  {
    var b := Resume(cfg, c);
    if forall i | 0 <= i < |cfg.frags| :: i in c.completed {
      assert AllOver(b.workers);
      RunAppend(cfg, b, [], Sync(true));
      NoEvents(cfg, b);
      assert RunEvents(cfg, b, [] + [Sync(true)]).driver.Completed?;
    } else if cfg.permits > 0 {
      var events := FirstFinish(cfg, b, |cfg.frags|);
      assert AllOver(RunEvents(cfg, b, events).workers);
      RunAppend(cfg, b, events, Sync(true));
      assert RunEvents(cfg, b, events + [Sync(true)]).driver.Completed?;
    } else {
      forall events
        ensures !RunEvents(cfg, b, events).driver.Completed?
      {
        var i :| 0 <= i < |cfg.frags| && i !in c.completed;
        NeverStarts(cfg, c, events, i);
      }
    }
  }

  lemma NoEvents(cfg: Config, b: State)
    requires |b.workers| == |cfg.frags| == |b.records|
    ensures RunEvents(cfg, b, []) == b
  {
  }

  /** Without a permit a fragment that is missing stays missing. */
  lemma {:induction false} NeverStarts(cfg: Config, c: Checkpoint, events: seq<Event>, i: nat)
    requires Truthful(cfg, c) && cfg.permits == 0 && i < |cfg.frags| && i !in c.completed
    ensures var s := RunEvents(cfg, Resume(cfg, c), events);
            !s.driver.Completed? && i !in s.reported
    decreases |events|
  {
    if |events| == 0 {
    } else {
      var init, e := events[..|events| - 1], events[|events| - 1];
      NeverStarts(cfg, c, init, i);
      ResumeInv(cfg, c);
      RunKeepsInv(cfg, Resume(cfg, c), init);
      RunKeepsInv(cfg, Resume(cfg, c), events);
      NobodyStarts(cfg, RunEvents(cfg, Resume(cfg, c), init), e, i);
    }
  }

  lemma NobodyStarts(cfg: Config, s: State, e: Event, i: nat)
    requires Inv(cfg, s) && cfg.permits == 0 && i < |cfg.frags| && i !in s.reported && !s.driver.Completed?
    ensures !Engine.Step(cfg, s, e).driver.Completed? && i !in Engine.Step(cfg, s, e).reported
  {
    hide Tiled, OnDisk, Overlay, OrphansInv;
    assert WorkerInv(cfg, i, s.workers[i], s.records[i], s.disk, i in s.reported, s.driver.Running?);
    if e.Io? && e.i == i && s.workers[i].phase.Active? {
      CountSet(s.workers, i, s.workers[i].(phase := Deciding));
    }
  }
}
