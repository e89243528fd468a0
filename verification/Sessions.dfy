/** What the engine achieves, over one session and over any number of them: a session starts from what
    the one before it reported complete, and ends however it ends. */
module Sessions {
  import opened Arithmetic
  import opened ByteStore
  import opened FragmentAttempt
  import opened Planner
  import opened Engine

  /** What a session hands to the next one: the disk, the writes that may still land on it and
      the fragments whose completion was reported. */
  datatype Checkpoint = Checkpoint(disk: Disk, orphans: seq<Orphan>, completed: set<nat>)

  /** A checkpoint tells the truth about honest fragments, and no pending write can spoil it. */
  predicate Truthful(cfg: Config, c: Checkpoint) {
    && Tiled(cfg.frags, |cfg.source|)
    && (forall i | i in c.completed && i < |cfg.frags| && i in cfg.honest :: OnDisk(cfg, c.disk, i, Len(cfg, i)))
    && OrphansInv(cfg, c.orphans)
  }

  function Resume(cfg: Config, c: Checkpoint): State {
    Initial(cfg, c.disk, c.orphans, c.completed)
  }

  function Suspend(s: State): Checkpoint {
    Checkpoint(s.disk, s.orphans, s.reported)
  }

  lemma {:induction false} NoneActive(workers: seq<Worker>)
    requires forall i | 0 <= i < |workers| :: !workers[i].phase.Active?
    ensures ActiveCount(workers) == 0
    decreases |workers|
  {
    if |workers| == 0 {
    } else {
      NoneActive(workers[..|workers| - 1]);
    }
  }

  lemma ResumeInv(cfg: Config, c: Checkpoint)
    requires Truthful(cfg, c)
    ensures Inv(cfg, Resume(cfg, c))
  {
    NoneActive(Resume(cfg, c).workers);
  }

  /** Every session, however it ends, leaves a truthful checkpoint: a fragment reported as
      complete holds the remote bytes, and neither a retry nor a write that was given up and
      lands late takes them away, whatever the streams of dishonest fragments deliver. */
  lemma CheckpointStaysTruthful(cfg: Config, c: Checkpoint, events: seq<Event>)
    requires Truthful(cfg, c)
    ensures Truthful(cfg, Suspend(RunEvents(cfg, Resume(cfg, c), events)))
  {
    ResumeInv(cfg, c);
    RunKeepsInv(cfg, Resume(cfg, c), events);
    var s := RunEvents(cfg, Resume(cfg, c), events);
    forall i | i in s.reported && i < |cfg.frags| && i in cfg.honest
      ensures OnDisk(cfg, s.disk, i, Len(cfg, i))
    {
      assert WorkerInv(cfg, i, s.workers[i], s.records[i], s.disk, i in s.reported, s.driver.Running?);
    }
  }

  /** Any number of sessions over the same fragmentation, each resumed from the checkpoint the
      one before it left. */
  function Sessions(cfg: Config, c: Checkpoint, schedules: seq<seq<Event>>): Checkpoint
    decreases |schedules|
  {
    if |schedules| == 0 then c
    else
      Suspend(RunEvents(cfg, Resume(cfg, Sessions(cfg, c, schedules[..|schedules| - 1])), schedules[|schedules| - 1]))
  }

  lemma {:induction false} SessionsStayTruthful(cfg: Config, c: Checkpoint, schedules: seq<seq<Event>>)
    requires Truthful(cfg, c)
    ensures Truthful(cfg, Sessions(cfg, c, schedules))
    decreases |schedules|
  {
    if |schedules| == 0 {
    } else {
      var init := schedules[..|schedules| - 1];
      SessionsStayTruthful(cfg, c, init);
      CheckpointStaysTruthful(cfg, Sessions(cfg, c, init), schedules[|schedules| - 1]);
    }
  }

  function TotalDownloaded(records: seq<FragmentRecord>): nat {
    if |records| == 0 then 0 else TotalDownloaded(records[..|records| - 1]) + records[|records| - 1].downloaded
  }

  lemma {:induction false} DownloadedAddsUp(records: seq<FragmentRecord>, frags: seq<FragmentInfo>)
    requires |records| == |frags| && forall i | 0 <= i < |frags| :: records[i].downloaded == frags[i].size
    ensures TotalDownloaded(records) == TotalSize(frags)
    decreases |frags|
  {
    if |frags| == 0 {
    } else {
      DownloadedAddsUp(records[..|frags| - 1], frags[..|frags| - 1]);
    }
  }

  /** The whole file is on the disk. */
  predicate FileOnDisk(disk: Disk, source: Bytes) {
    forall p | 0 <= p < |source| :: p in disk.bytes && disk.bytes[p] == source[p]
  }

  /** When the engine reports success, every fragment is Done, the downloaded counts add up to
      the file size, and every honest fragment holds the remote bytes. */
  lemma CompletedMeansDownloaded(cfg: Config, c: Checkpoint, events: seq<Event>)
    requires Truthful(cfg, c)
    requires RunEvents(cfg, Resume(cfg, c), events).driver.Completed?
    ensures var s := RunEvents(cfg, Resume(cfg, c), events);
            && (forall i | 0 <= i < |cfg.frags| :: s.records[i].info == cfg.frags[i] && s.records[i].state == FragmentState.Done)
            && TotalDownloaded(s.records) == |cfg.source|
            && (forall i | 0 <= i < |cfg.frags| && i in cfg.honest :: OnDisk(cfg, s.disk, i, Len(cfg, i)))
  {
    ResumeInv(cfg, c);
    RunKeepsInv(cfg, Resume(cfg, c), events);
    var s := RunEvents(cfg, Resume(cfg, c), events);
    forall i | 0 <= i < |cfg.frags|
      ensures s.workers[i].phase.Joined?
      ensures WorkerInv(cfg, i, s.workers[i], s.records[i], s.disk, i in s.reported, false)
    {
      assert WorkerInv(cfg, i, s.workers[i], s.records[i], s.disk, i in s.reported, s.driver.Running?);
    }
    DownloadedAddsUp(s.records, cfg.frags);
    TilesAddUp(cfg.frags, |cfg.source|);
  }

  lemma ByteOnDisk(cfg: Config, disk: Disk, p: nat)
    requires Tiled(cfg.frags, |cfg.source|) && p < |cfg.source|
    requires forall i | 0 <= i < |cfg.frags| :: OnDisk(cfg, disk, i, Len(cfg, i))
    ensures p in disk.bytes && disk.bytes[p] == cfg.source[p]
  {
    var i := TilesCover(cfg.frags, |cfg.source|, p);
    TilesEndInside(cfg.frags, |cfg.source|, i);
    assert OnDisk(cfg, disk, i, Len(cfg, i));
    assert RemoteByte(cfg, disk, p);
  }

  /** The engine's promise. After any sessions, when a session whose streams all serve the
      remote file completes, the disk holds the remote file, and it still does after any dropped
      write that lands later. */
  lemma EngineDownloadsTheFile(cfg: Config, c: Checkpoint, schedules: seq<seq<Event>>, events: seq<Event>)
    requires Truthful(cfg, c)
    requires forall i | 0 <= i < |cfg.frags| :: i in cfg.honest
    requires RunEvents(cfg, Resume(cfg, Sessions(cfg, c, schedules)), events).driver.Completed?
    ensures FileOnDisk(RunEvents(cfg, Resume(cfg, Sessions(cfg, c, schedules)), events).disk, cfg.source)
  {
    hide Tiled, OnDisk, RunEvents;
    var c' := Sessions(cfg, c, schedules);
    SessionsStayTruthful(cfg, c, schedules);
    CompletedMeansDownloaded(cfg, c', events);
    var disk := RunEvents(cfg, Resume(cfg, c'), events).disk;
    forall p | 0 <= p < |cfg.source|
      ensures p in disk.bytes && disk.bytes[p] == cfg.source[p]
    {
      ByteOnDisk(cfg, disk, p);
    }
  }

  /** A worker makes at most `maxRetries + 1` download attempts and sleeps at most 1024 seconds
      per retry, whatever the breaker, the network and the scheduler do. */
  lemma RetriesAreBounded(cfg: Config, c: Checkpoint, events: seq<Event>, i: nat)
    requires Truthful(cfg, c) && i < |cfg.frags|
    ensures var w := RunEvents(cfg, Resume(cfg, c), events).workers[i];
            w.tries <= cfg.maxRetries + 1 && w.slept <= 1024 * cfg.maxRetries
  {
    ResumeInv(cfg, c);
    RunKeepsInv(cfg, Resume(cfg, c), events);
    var s := RunEvents(cfg, Resume(cfg, c), events);
    assert WorkerInv(cfg, i, s.workers[i], s.records[i], s.disk, i in s.reported, s.driver.Running?);
    MulMonotone(s.workers[i].attempt, cfg.maxRetries, 1024);
  }

  /** No run, successful or not, touches an offset behind the end of the file. */
  lemma {:induction false} NothingPastTheEnd(cfg: Config, c: Checkpoint, events: seq<Event>, p: nat)
    requires Truthful(cfg, c) && p >= |cfg.source|
    ensures SameAt(c.disk, RunEvents(cfg, Resume(cfg, c), events).disk, p)
    decreases |events|
  {
    if |events| == 0 {
    } else {
      var init, e := events[..|events| - 1], events[|events| - 1];
      NothingPastTheEnd(cfg, c, init, p);
      ResumeInv(cfg, c);
      RunKeepsInv(cfg, Resume(cfg, c), init);
      StepWritesInside(cfg, RunEvents(cfg, Resume(cfg, c), init), e, p);
    }
  }

  lemma GoodPieceInside(cfg: Config, disk: Disk, i: nat, pos: nat, data: Bytes, p: nat)
    requires Tiled(cfg.frags, |cfg.source|) && GoodPiece(cfg, i, pos, data) && p >= |cfg.source|
    ensures SameAt(disk, Overlay(disk, pos, data), p)
  {
    TilesEndInside(cfg.frags, |cfg.source|, i);
    OverlayAt(disk, pos, data);
  }

  lemma StepWritesInside(cfg: Config, s: State, e: Event, p: nat)
    requires Inv(cfg, s) && p >= |cfg.source|
    ensures SameAt(s.disk, Engine.Step(cfg, s, e).disk, p)
  {
    hide Tiled, Overlay, ActiveCount, OnDisk;
    if e.Land? && e.k < |s.orphans| && e.n <= |s.orphans[e.k].data| {
      var o := s.orphans[e.k];
      GoodPrefix(cfg, o.owner, o.pos, o.data, e.n);
      GoodPieceInside(cfg, s.disk, o.owner, o.pos, o.data[..e.n], p);
    } else if e.Io? && e.i < |s.workers| && s.workers[e.i].phase.Active? {
      var i, a := e.i, s.workers[e.i].phase.attempt;
      assert WorkerInv(cfg, i, s.workers[i], s.records[i], s.disk, i in s.reported, s.driver.Running?);
      var n := Persisted(a, e.ev);
      if n > 0 {
        BatchIsGood(cfg, i, a, s.workers[i].phase.delivered, n);
        GoodPieceInside(cfg, s.disk, i, Start(cfg, i) + a.written, a.batch[..n], p);
      }
    }
  }
}
