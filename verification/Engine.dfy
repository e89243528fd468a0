/** The fragmented download (`plan` and `execute_fragmented_download`): one worker per pending
    fragment, all of them interleaved over one storage, and the driver that joins them.

    `Step` is one event of this system. What the scheduler, the network, the storage and the
    control channel decide is in the event, so a statement about all event sequences is a
    statement about all interleavings, all short writes and all failures. */
module Engine {
  import opened Arithmetic
  import opened ByteStore
  import opened FragmentAttempt
  import opened RetryPolicy
  import opened Planner

  datatype FragmentState = Pending | Downloading | Done | Failed

  datatype FragmentRecord = FragmentRecord(info: FragmentInfo, state: FragmentState, downloaded: nat) {
    /** `None` stands for the error of an illegal transition. */
    function StartDownload(): Option<FragmentRecord> {
      if state.Pending? then Some(this.(state := Downloading)) else None
    }

    function CompleteDownloadFast(total: nat): Option<FragmentRecord> {
      if state.Downloading? then Some(this.(state := FragmentState.Done, downloaded := total)) else None
    }

    function ForceFail(): FragmentRecord {
      this.(state := FragmentState.Failed)
    }
  }

  /** `honest` lists the fragments whose streams serve the remote file; nothing is known of
      what the streams of the other fragments deliver. */
  datatype Config = Config(source: Bytes, frags: seq<FragmentInfo>, maxRetries: nat, permits: nat, honest: set<nat>)

  datatype Phase =
    | Deciding                                   // about to ask the circuit breaker
    | Queued                                     // waiting for the concurrency semaphore
    | Active(attempt: Attempt, delivered: Bytes)
    | Sleeping(secs: nat)
    | Exited(outcome: Outcome)
    | Panicked                                   // and not yet joined
    | Joined
    | Aborted

  datatype Worker = Worker(attempt: nat, tries: nat, slept: nat, phase: Phase)

  datatype Driver = Running | Draining | Completed | Failed | SyncError | IllegalTransition

  /** `reported` holds the fragments whose completion has been announced to the checkpoint. */
  datatype State = State(disk: Disk, orphans: seq<Orphan>, workers: seq<Worker>, records: seq<FragmentRecord>,
                         free: nat, driver: Driver, reported: set<nat>)

  datatype Event =
    | BreakerSays(i: nat, allow: bool)
    | GrantPermit(i: nat)
    | Io(i: nat, ev: AttemptEvent)
    | Settle(i: nat)                             // the attempt's result reaches the retry loop
    | Wake(i: nat)
    | Join(i: nat)
    | Panic(i: nat)
    | Abort(i: nat)
    | Drained
    | Sync(ok: bool)
    | Land(k: nat, n: nat)                       // the backend carries out a dropped write after all

  function Start(cfg: Config, i: nat): nat
    requires i < |cfg.frags|
  {
    cfg.frags[i].start
  }

  function Len(cfg: Config, i: nat): nat
    requires i < |cfg.frags|
  {
    cfg.frags[i].size
  }

  /** An honest stream may be cut short, fail or run on, but the bytes it delivers for the
      fragment's range are those of the remote file. */
  predicate Served(cfg: Config, i: nat, delivered: Bytes)
    requires i < |cfg.frags|
  {
    forall j | 0 <= j < |delivered| && j < Len(cfg, i) ::
      Start(cfg, i) + j < |cfg.source| && delivered[j] == cfg.source[Start(cfg, i) + j]
  }

  function Abandon(cfg: Config, i: nat, p: Phase): seq<Orphan>
    requires i < |cfg.frags|
  {
    if p.Active? && p.attempt.Flushing? then [Orphan(i, Start(cfg, i) + p.attempt.written, p.attempt.batch)] else []
  }

  function SetPhase(s: State, i: nat, p: Phase): State
    requires i < |s.workers|
  {
    s.(workers := s.workers[i := s.workers[i].(phase := p)])
  }

  predicate Over(p: Phase) {
    p.Joined? || p.Aborted?
  }

  /** The task of worker `i` ends where it is: it gives its permit back, and the write it was in
      may still be carried out. */
  function EndWorker(cfg: Config, s: State, i: nat, how: Phase): State
    requires i < |s.workers| == |cfg.frags|
  {
    var p := s.workers[i].phase;
    SetPhase(s, i, how).(orphans := s.orphans + Abandon(cfg, i, p), free := if p.Active? then s.free + 1 else s.free)
  }

  function StepIo(cfg: Config, s: State, i: nat, ev: AttemptEvent): State
    requires i < |s.workers| == |cfg.frags|
  {
    var p := s.workers[i].phase;
    if !p.Active? || Terminal(p.attempt) then s
    else if ev.Chunk? && i in cfg.honest && !Served(cfg, i, p.delivered + ev.data) then s
    else
      var r := FragmentAttempt.Step(Start(cfg, i), Len(cfg, i), Run(p.attempt, p.delivered, s.disk), ev);
      SetPhase(s, i, Active(r.attempt, r.delivered))
        .(disk := r.disk,
          orphans := if ev.Interrupt? then s.orphans + Abandon(cfg, i, p) else s.orphans,
          reported := if r.attempt.Succeeded? then s.reported + {i} else s.reported)
  }

  function StepSettle(cfg: Config, s: State, i: nat): State
    requires i < |s.workers| == |cfg.frags|
  {
    var w := s.workers[i];
    if !w.phase.Active? then s
    else
      match w.phase.attempt
      case Succeeded(total) => SetPhase(s, i, Exited(Outcome.Done(total))).(free := s.free + 1)
      case Failed(e) =>
        SetPhase(s, i, if e.Fatal? || w.attempt >= cfg.maxRetries then Exited(Outcome.Error(e))
                       else Sleeping(BackoffSecs(cfg.frags[i].index, w.attempt, e))).(free := s.free + 1)
      case _ => s
  }

  function StepJoin(cfg: Config, s: State, i: nat): State
    requires i < |s.workers| == |cfg.frags| == |s.records|
  {
    var p := s.workers[i].phase;
    if s.driver.Running? && p.Panicked? then SetPhase(s, i, Aborted).(driver := Draining)
    else if !s.driver.Running? || !p.Exited? then s
    else if p.outcome.Error? then
      SetPhase(s, i, Aborted).(records := s.records[i := s.records[i].ForceFail()], driver := Draining)
    else
      match s.records[i].CompleteDownloadFast(p.outcome.total)
      case Some(done) => SetPhase(s, i, Joined).(records := s.records[i := done])
      case None => s.(driver := IllegalTransition)
  }

  function StepWorker(cfg: Config, s: State, i: nat, e: Event): State
    requires i < |s.workers| == |cfg.frags| == |s.records|
  {
    var w := s.workers[i];
    match e
    case BreakerSays(_, allow) =>
      if !w.phase.Deciding? then s
      else SetPhase(s, i, if allow then Queued
                          else if w.attempt >= cfg.maxRetries then Exited(Outcome.Error(Retryable))
                          else Sleeping(1))
    case GrantPermit(_) =>
      if !w.phase.Queued? || s.free == 0 then s
      else s.(workers := s.workers[i := w.(tries := w.tries + 1, phase := Active(Connecting, []))], free := s.free - 1)
    case Io(_, ev) => StepIo(cfg, s, i, ev)
    case Settle(_) => StepSettle(cfg, s, i)
    case Wake(_) =>
      if !w.phase.Sleeping? then s
      else s.(workers := s.workers[i := Worker(w.attempt + 1, w.tries, w.slept + w.phase.secs, Deciding)])
    case Join(_) => StepJoin(cfg, s, i)
    case Panic(_) =>
      if Over(w.phase) || w.phase.Exited? || w.phase.Panicked? then s else EndWorker(cfg, s, i, Panicked)
    case Abort(_) =>
      if !s.driver.Draining? || Over(w.phase) then s else EndWorker(cfg, s, i, Aborted)
    case _ => s
  }

  predicate AllOver(workers: seq<Worker>) {
    forall i | 0 <= i < |workers| :: Over(workers[i].phase)
  }

  function Step(cfg: Config, s: State, e: Event): State
    requires |s.workers| == |cfg.frags| == |s.records|
  {
    match e
    case Drained => if s.driver.Draining? && AllOver(s.workers) then s.(driver := Driver.Failed) else s
    case Sync(ok) =>
      if s.driver.Running? && AllOver(s.workers) then s.(driver := if ok then Completed else SyncError) else s
    case Land(k, n) =>
      if k < |s.orphans| && n <= |s.orphans[k].data|
      then s.(disk := Overlay(s.disk, s.orphans[k].pos, s.orphans[k].data[..n]))
      else s
    case _ => if e.i < |s.workers| then StepWorker(cfg, s, e.i, e) else s
  }

  function RunEvents(cfg: Config, s: State, events: seq<Event>): (r: State)
    requires |s.workers| == |cfg.frags| == |s.records|
    ensures |r.workers| == |cfg.frags| == |r.records|
    decreases |events|
  {
    if |events| == 0 then s else Step(cfg, RunEvents(cfg, s, events[..|events| - 1]), events[|events| - 1])
  }

  lemma RunAppend(cfg: Config, s: State, events: seq<Event>, e: Event)
    requires |s.workers| == |cfg.frags| == |s.records|
    ensures RunEvents(cfg, s, events + [e]) == Step(cfg, RunEvents(cfg, s, events), e)
  {
    assert (events + [e])[..|events|] == events;
  }

  /** What `plan` and the spawning loop set up: resumed fragments are Done, every other fragment
      is Downloading and has a worker. Dropped writes of an earlier session may still land. */
  function PlannedRecord(cfg: Config, resumed: set<nat>, i: nat): FragmentRecord
    requires i < |cfg.frags|
  {
    if i in resumed then FragmentRecord(cfg.frags[i], FragmentState.Done, cfg.frags[i].size)
    else FragmentRecord(cfg.frags[i], Downloading, 0)
  }

  function Initial(cfg: Config, disk: Disk, orphans: seq<Orphan>, resumed: set<nat>): State {
    State(disk, orphans,
          seq(|cfg.frags|, i => Worker(0, 0, 0, if i in resumed then Joined else Deciding)),
          seq(|cfg.frags|, i requires 0 <= i < |cfg.frags| => PlannedRecord(cfg, resumed, i)),
          cfg.permits, Running, resumed)
  }

  // ----- The invariant -----

  /** The first `w` bytes of fragment `i` are on the disk, as the remote file has them. */
  predicate OnDisk(cfg: Config, disk: Disk, i: nat, w: nat)
    requires i < |cfg.frags|
  {
    forall p: nat | Start(cfg, i) <= p < Start(cfg, i) + w :: RemoteByte(cfg, disk, p)
  }

  /** The disk has the remote file's byte at `p`. */
  predicate RemoteByte(cfg: Config, disk: Disk, p: nat) {
    p < |cfg.source| && p in disk.bytes && disk.bytes[p] == cfg.source[p]
  }

  /** `data` is what the remote file has at `pos`. */
  predicate IsSource(source: Bytes, pos: nat, data: Bytes) {
    forall j | 0 <= j < |data| :: pos + j < |source| && data[j] == source[pos + j]
  }

  lemma SourceAt(source: Bytes, pos: nat, data: Bytes, j: nat)
    requires IsSource(source, pos, data) && j < |data|
    ensures pos + j < |source| && data[j] == source[pos + j]
  {
  }

  /** A piece of data that a worker of fragment `i` may write: it lies in the fragment's range,
      and it is what the remote file has there if the fragment's streams are honest. */
  predicate GoodPiece(cfg: Config, i: nat, pos: nat, data: Bytes) {
    && i < |cfg.frags|
    && Start(cfg, i) <= pos && pos + |data| <= Start(cfg, i) + Len(cfg, i)
    && (i in cfg.honest ==> IsSource(cfg.source, pos, data))
  }

  predicate PhaseInv(cfg: Config, i: nat, p: Phase, rec: FragmentRecord, disk: Disk, told: bool)
    requires i < |cfg.frags|
  {
    match p
    case Active(a, delivered) =>
      && Shape(Len(cfg, i), a, delivered)
      && (i in cfg.honest ==> Served(cfg, i, delivered))
      && (i in cfg.honest && (a.Reading? || a.Flushing?) ==> OnDisk(cfg, disk, i, a.written))
      && (told <==> a.Succeeded?)
    case Exited(outcome) => if outcome.Done? then outcome.total == Len(cfg, i) && told else !told
    case Joined => told && rec.state == FragmentState.Done && rec.downloaded == Len(cfg, i)
    case Aborted => true
    case Panicked => true
    case _ => !told
  }

  predicate RetryInv(cfg: Config, w: Worker) {
    && w.attempt <= cfg.maxRetries
    && w.tries <= w.attempt + (if w.phase.Deciding? || w.phase.Queued? then 0 else 1)
    && w.slept <= 1024 * w.attempt
    && (w.phase.Sleeping? ==> w.phase.secs <= 1024 && w.attempt < cfg.maxRetries)
  }

  predicate WorkerInv(cfg: Config, i: nat, w: Worker, rec: FragmentRecord, disk: Disk, told: bool, running: bool)
    requires i < |cfg.frags|
  {
    && RetryInv(cfg, w)
    && PhaseInv(cfg, i, w.phase, rec, disk, told)
    && rec.info == cfg.frags[i]
    && (running ==> !w.phase.Aborted?)
    && (running && !w.phase.Joined? ==> rec.state == Downloading)
    && (told && i in cfg.honest ==> OnDisk(cfg, disk, i, Len(cfg, i)))
  }

  function ActiveCount(workers: seq<Worker>): nat {
    if |workers| == 0 then 0
    else ActiveCount(workers[..|workers| - 1]) + if workers[|workers| - 1].phase.Active? then 1 else 0
  }

  predicate WorkersInv(cfg: Config, s: State)
    requires |s.workers| == |cfg.frags| == |s.records|
  {
    forall i | 0 <= i < |s.workers| ::
      WorkerInv(cfg, i, s.workers[i], s.records[i], s.disk, i in s.reported, s.driver.Running?)
  }

  predicate OrphansInv(cfg: Config, orphans: seq<Orphan>) {
    forall k | 0 <= k < |orphans| :: GoodPiece(cfg, orphans[k].owner, orphans[k].pos, orphans[k].data)
  }

  predicate Inv(cfg: Config, s: State) {
    && Tiled(cfg.frags, |cfg.source|)
    && |s.workers| == |cfg.frags| == |s.records|
    && WorkersInv(cfg, s)
    && OrphansInv(cfg, s.orphans)
    && s.free + ActiveCount(s.workers) == cfg.permits
    && (s.driver.Completed? ==> forall i | 0 <= i < |s.workers| :: s.workers[i].phase.Joined?)
    && !s.driver.IllegalTransition?
  }

  lemma {:induction false} CountSet(workers: seq<Worker>, i: nat, w: Worker)
    requires i < |workers|
    ensures ActiveCount(workers[i := w]) + (if workers[i].phase.Active? then 1 else 0)
         == ActiveCount(workers) + (if w.phase.Active? then 1 else 0)
    decreases |workers|
  {
    var last := |workers| - 1;
    if i == last {
      assert workers[i := w][..last] == workers[..last];
    } else {
      assert workers[i := w][..last] == workers[..last][i := w];
      CountSet(workers[..last], i, w);
    }
  }

  /** A good piece laid over the disk takes nothing from what any honest fragment has there:
      other fragments' ranges are disjoint, and in its own range it writes the right bytes. */
  lemma GoodPieceKeeps(cfg: Config, disk: Disk, i: nat, pos: nat, data: Bytes, j: nat, w: nat)
    requires Tiled(cfg.frags, |cfg.source|) && GoodPiece(cfg, i, pos, data)
    requires j < |cfg.frags| && j in cfg.honest && w <= Len(cfg, j) && OnDisk(cfg, disk, j, w)
    ensures OnDisk(cfg, Overlay(disk, pos, data), j, w)
  {
    TilesEndInside(cfg.frags, |cfg.source|, i);
    TilesEndInside(cfg.frags, |cfg.source|, j);
    if i < j {
      TilesAreOrdered(cfg.frags, |cfg.source|, i, j);
    } else if j < i {
      TilesAreOrdered(cfg.frags, |cfg.source|, j, i);
    }
    hide Tiled;
    forall p: nat | Start(cfg, j) <= p < Start(cfg, j) + w
      ensures RemoteByte(cfg, Overlay(disk, pos, data), p)
    {
      assert RemoteByte(cfg, disk, p);
      OverlayPoint(disk, pos, data, p);
      if pos <= p < pos + |data| {
        SourceAt(cfg.source, pos, data, p - pos);
      }
    }
  }

  lemma GoodPieceKeepsWorker(cfg: Config, disk: Disk, i: nat, pos: nat, data: Bytes,
                             j: nat, w: Worker, rec: FragmentRecord, told: bool, running: bool)
    requires Tiled(cfg.frags, |cfg.source|) && GoodPiece(cfg, i, pos, data)
    requires j < |cfg.frags| && WorkerInv(cfg, j, w, rec, disk, told, running)
    ensures WorkerInv(cfg, j, w, rec, Overlay(disk, pos, data), told, running)
  {
    hide Overlay, OnDisk, GoodPiece, Tiled;
    if j in cfg.honest {
      if told {
        GoodPieceKeeps(cfg, disk, i, pos, data, j, Len(cfg, j));
      }
      if w.phase.Active? && (w.phase.attempt.Reading? || w.phase.attempt.Flushing?) {
        GoodPieceKeeps(cfg, disk, i, pos, data, j, w.phase.attempt.written);
      }
    }
  }

  // ----- Every step keeps the invariant -----

  /** A good piece reaches the disk. */
  lemma WriteKeepsInv(cfg: Config, s: State, i: nat, pos: nat, data: Bytes)
    requires Inv(cfg, s) && GoodPiece(cfg, i, pos, data)
    ensures Inv(cfg, s.(disk := Overlay(s.disk, pos, data)))
  {
    hide Overlay, WorkerInv, GoodPiece, Tiled;
    var s' := s.(disk := Overlay(s.disk, pos, data));
    forall j | 0 <= j < |s.workers|
      ensures WorkerInv(cfg, j, s'.workers[j], s'.records[j], s'.disk, j in s'.reported, s'.driver.Running?)
    {
      GoodPieceKeepsWorker(cfg, s.disk, i, pos, data, j, s.workers[j], s.records[j], j in s.reported, s.driver.Running?);
    }
  }

  lemma WorkerInvDraining(cfg: Config, i: nat, w: Worker, rec: FragmentRecord, disk: Disk, told: bool, was: bool, running: bool)
    requires i < |cfg.frags| && WorkerInv(cfg, i, w, rec, disk, told, was) && (running ==> was)
    ensures WorkerInv(cfg, i, w, rec, disk, told, running)
  {
  }

  /** A step that touches worker `i` only keeps the invariant if it keeps it for worker `i`. */
  lemma OneWorkerKeepsInv(cfg: Config, s: State, s': State, i: nat)
    requires Inv(cfg, s) && i < |s.workers| == |s'.workers| == |s'.records|
    requires s'.workers == s.workers[i := s'.workers[i]] && s'.records == s.records[i := s'.records[i]]
    requires forall j | 0 <= j < |s.workers| && j != i :: j in s'.reported <==> j in s.reported
    requires s'.disk == s.disk && (s'.driver.Running? ==> s.driver.Running?)
    requires !s'.driver.Completed? && !s'.driver.IllegalTransition?
    requires WorkerInv(cfg, i, s'.workers[i], s'.records[i], s'.disk, i in s'.reported, s'.driver.Running?)
    requires OrphansInv(cfg, s'.orphans)
    requires s'.free + (if s'.workers[i].phase.Active? then 1 else 0) == s.free + (if s.workers[i].phase.Active? then 1 else 0)
    ensures Inv(cfg, s')
  {
    hide WorkerInv, OrphansInv, Tiled;
    CountSet(s.workers, i, s'.workers[i]);
    forall j | 0 <= j < |s'.workers|
      ensures WorkerInv(cfg, j, s'.workers[j], s'.records[j], s'.disk, j in s'.reported, s'.driver.Running?)
    {
      if j != i {
        WorkerInvDraining(cfg, j, s.workers[j], s.records[j], s.disk, j in s.reported, s.driver.Running?, s'.driver.Running?);
      }
    }
  }

  /** What a worker still has to write is good: it is a part of what was delivered. */
  lemma BatchIsGood(cfg: Config, i: nat, a: Attempt, delivered: Bytes, n: nat)
    requires i < |cfg.frags| && a.Flushing? && Shape(Len(cfg, i), a, delivered)
    requires i in cfg.honest ==> Served(cfg, i, delivered)
    requires n <= |a.batch|
    ensures GoodPiece(cfg, i, Start(cfg, i) + a.written, a.batch[..n])
  {
    if i in cfg.honest {
      var pos, data := Start(cfg, i) + a.written, a.batch[..n];
      forall j | 0 <= j < |data|
        ensures pos + j < |cfg.source| && data[j] == cfg.source[pos + j]
      {
        assert data[j] == delivered[a.written + j];
      }
      assert IsSource(cfg.source, pos, data);
    }
  }

  lemma GoodPrefix(cfg: Config, i: nat, pos: nat, data: Bytes, n: nat)
    requires GoodPiece(cfg, i, pos, data) && n <= |data|
    ensures GoodPiece(cfg, i, pos, data[..n])
  {
    forall j | 0 <= j < n && i in cfg.honest
      ensures pos + j < |cfg.source| && data[..n][j] == cfg.source[pos + j]
    {
      SourceAt(cfg.source, pos, data, j);
    }
  }

  lemma AbandonIsGood(cfg: Config, s: State, i: nat)
    requires Inv(cfg, s) && i < |s.workers|
    ensures OrphansInv(cfg, s.orphans + Abandon(cfg, i, s.workers[i].phase))
  {
    var p := s.workers[i].phase;
    assert WorkerInv(cfg, i, s.workers[i], s.records[i], s.disk, i in s.reported, s.driver.Running?);
    if p.Active? && p.attempt.Flushing? {
      BatchIsGood(cfg, i, p.attempt, p.delivered, |p.attempt.batch|);
      assert p.attempt.batch[..|p.attempt.batch|] == p.attempt.batch;
    }
  }

  /** Once the `n` bytes of the event are on the disk, they extend what worker `i` has there. */
  lemma WriteExtends(cfg: Config, disk: Disk, i: nat, a: Attempt, delivered: Bytes, n: nat)
    requires Tiled(cfg.frags, |cfg.source|)
    requires i < |cfg.frags| && i in cfg.honest && a.Flushing? && n <= |a.batch|
    requires Shape(Len(cfg, i), a, delivered) && Served(cfg, i, delivered) && OnDisk(cfg, disk, i, a.written)
    ensures OnDisk(cfg, Overlay(disk, Start(cfg, i) + a.written, a.batch[..n]), i, a.written + n)
  {
    hide Tiled, Shape, Served;
    BatchIsGood(cfg, i, a, delivered, n);
    SourceExtends(cfg, disk, i, a.written, a.batch[..n]);
  }

  lemma SourceExtends(cfg: Config, disk: Disk, i: nat, w: nat, data: Bytes)
    requires i < |cfg.frags| && OnDisk(cfg, disk, i, w) && IsSource(cfg.source, Start(cfg, i) + w, data)
    ensures OnDisk(cfg, Overlay(disk, Start(cfg, i) + w, data), i, w + |data|)
  {
    var pos := Start(cfg, i) + w;
    forall p: nat | Start(cfg, i) <= p < Start(cfg, i) + (w + |data|)
      ensures RemoteByte(cfg, Overlay(disk, pos, data), p)
    {
      OverlayPoint(disk, pos, data, p);
      if p >= pos {
        SourceAt(cfg.source, pos, data, p - pos);
      } else {
        assert RemoteByte(cfg, disk, p);
      }
    }
  }

  lemma StepIoKeepsInv(cfg: Config, s: State, i: nat, ev: AttemptEvent)
    requires Inv(cfg, s) && i < |s.workers|
    ensures Inv(cfg, StepIo(cfg, s, i, ev))
  {
    hide Overlay, Tiled, OrphansInv, FragmentAttempt.NextAttempt, ActiveCount;
    var w := s.workers[i];
    var s' := StepIo(cfg, s, i, ev);
    if s' != s {
      var a, delivered := w.phase.attempt, w.phase.delivered;
      assert WorkerInv(cfg, i, w, s.records[i], s.disk, i in s.reported, s.driver.Running?);
      var start, len := Start(cfg, i), Len(cfg, i);
      var run := Run(a, delivered, s.disk);
      var r := FragmentAttempt.Step(start, len, run, ev);
      ShapeStep(start, len, run, ev);
      AbandonIsGood(cfg, s, i);
      var n := Persisted(a, ev);
      var s1 := s.(disk := s'.disk);
      if n > 0 {
        BatchIsGood(cfg, i, a, delivered, n);
        WriteKeepsInv(cfg, s, i, start + a.written, a.batch[..n]);
      }
      assert Inv(cfg, s1);
      IoProgress(cfg, s, i, ev);
      OneWorkerKeepsInv(cfg, s1, s', i);
    }
  }

  /** The new phase of worker `i`, on the new disk, satisfies its invariant. */
  lemma IoProgress(cfg: Config, s: State, i: nat, ev: AttemptEvent)
    requires Inv(cfg, s) && i < |s.workers| && StepIo(cfg, s, i, ev) != s
    ensures var s' := StepIo(cfg, s, i, ev);
            WorkerInv(cfg, i, s'.workers[i], s'.records[i], s'.disk, i in s'.reported, s'.driver.Running?)
  {
    hide Overlay, Tiled, OrphansInv, ActiveCount;
    var w := s.workers[i];
    var s' := StepIo(cfg, s, i, ev);
    var a, delivered := w.phase.attempt, w.phase.delivered;
    assert WorkerInv(cfg, i, w, s.records[i], s.disk, i in s.reported, s.driver.Running?);
    var run := Run(a, delivered, s.disk);
    ShapeStep(Start(cfg, i), Len(cfg, i), run, ev);
    if a.Flushing? && i in cfg.honest {
      WriteExtends(cfg, s.disk, i, a, delivered, Persisted(a, ev));
    }
  }

  lemma EndWorkerKeepsInv(cfg: Config, s: State, i: nat, how: Phase)
    requires Inv(cfg, s) && i < |s.workers| && !s.driver.Completed? && !Over(s.workers[i].phase)
    requires how.Panicked? || (how.Aborted? && s.driver.Draining?)
    ensures Inv(cfg, EndWorker(cfg, s, i, how))
  {
    hide Tiled, OrphansInv, ActiveCount, OnDisk;
    AbandonIsGood(cfg, s, i);
    assert WorkerInv(cfg, i, s.workers[i], s.records[i], s.disk, i in s.reported, s.driver.Running?);
    OneWorkerKeepsInv(cfg, s, EndWorker(cfg, s, i, how), i);
  }

  lemma SettleKeepsInv(cfg: Config, s: State, i: nat)
    requires Inv(cfg, s) && i < |s.workers|
    ensures Inv(cfg, StepSettle(cfg, s, i))
  {
    hide Tiled, OrphansInv, ActiveCount, OnDisk, BackoffSecs;
    var w := s.workers[i];
    assert WorkerInv(cfg, i, w, s.records[i], s.disk, i in s.reported, s.driver.Running?);
    if w.phase.Active? && Terminal(w.phase.attempt) {
      if w.phase.attempt.Failed? {
        BackoffAtMost1024(cfg.frags[i].index, w.attempt, w.phase.attempt.error);
      }
      OneWorkerKeepsInv(cfg, s, StepSettle(cfg, s, i), i);
    }
  }

  lemma JoinKeepsInv(cfg: Config, s: State, i: nat)
    requires Inv(cfg, s) && i < |s.workers|
    ensures Inv(cfg, StepJoin(cfg, s, i))
  {
    hide Tiled, OrphansInv, ActiveCount, OnDisk;
    var w := s.workers[i];
    assert WorkerInv(cfg, i, w, s.records[i], s.disk, i in s.reported, s.driver.Running?);
    if s.driver.Running? && (w.phase.Exited? || w.phase.Panicked?) {
      OneWorkerKeepsInv(cfg, s, StepJoin(cfg, s, i), i);
    }
  }

  lemma WorkerStepKeepsInv(cfg: Config, s: State, i: nat, e: Event)
    requires Inv(cfg, s) && i < |s.workers|
    ensures Inv(cfg, StepWorker(cfg, s, i, e))
  {
    hide Tiled, OrphansInv, ActiveCount, OnDisk, StepIo, StepSettle, StepJoin, EndWorker;
    assert WorkerInv(cfg, i, s.workers[i], s.records[i], s.disk, i in s.reported, s.driver.Running?);
    match e
    case Io(_, ev) => StepIoKeepsInv(cfg, s, i, ev);
    case Settle(_) => SettleKeepsInv(cfg, s, i);
    case Join(_) => JoinKeepsInv(cfg, s, i);
    case Panic(_) => if StepWorker(cfg, s, i, e) != s { EndWorkerKeepsInv(cfg, s, i, Panicked); }
    case Abort(_) => if StepWorker(cfg, s, i, e) != s { EndWorkerKeepsInv(cfg, s, i, Aborted); }
    case BreakerSays(_, _) =>
      if s.workers[i].phase.Deciding? { OneWorkerKeepsInv(cfg, s, StepWorker(cfg, s, i, e), i); }
    case GrantPermit(_) =>
      if s.workers[i].phase.Queued? && s.free > 0 { OneWorkerKeepsInv(cfg, s, StepWorker(cfg, s, i, e), i); }
    case Wake(_) =>
      if s.workers[i].phase.Sleeping? { OneWorkerKeepsInv(cfg, s, StepWorker(cfg, s, i, e), i); }
    case _ =>
  }

  /** Every step of the system, taken by whomever, keeps the invariant. */
  lemma StepKeepsInv(cfg: Config, s: State, e: Event)
    requires Inv(cfg, s)
    ensures Inv(cfg, Step(cfg, s, e))
  {
    hide Tiled, ActiveCount, OnDisk, StepWorker;
    match e
    case Drained =>
    case Sync(_) =>
      forall i | 0 <= i < |s.workers| && s.driver.Running?
        ensures !s.workers[i].phase.Aborted?
      {
        assert WorkerInv(cfg, i, s.workers[i], s.records[i], s.disk, i in s.reported, s.driver.Running?);
      }
    case Land(k, n) =>
      if k < |s.orphans| && n <= |s.orphans[k].data| {
        var o := s.orphans[k];
        GoodPrefix(cfg, o.owner, o.pos, o.data, n);
        WriteKeepsInv(cfg, s, o.owner, o.pos, o.data[..n]);
      }
    case _ =>
      if e.i < |s.workers| {
        WorkerStepKeepsInv(cfg, s, e.i, e);
      }
  }

  lemma {:induction false} RunKeepsInv(cfg: Config, s: State, events: seq<Event>)
    requires Inv(cfg, s)
    ensures Inv(cfg, RunEvents(cfg, s, events))
    decreases |events|
  {
    if |events| == 0 {
    } else {
      var init := events[..|events| - 1];
      RunKeepsInv(cfg, s, init);
      StepKeepsInv(cfg, RunEvents(cfg, s, init), events[|events| - 1]);
    }
  }
}
