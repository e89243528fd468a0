/** The driver of the download as the object it is: the fields `plan` and
    `execute_fragmented_download` assign, and their loops, proved to do what the events of the
    engine say. */
module Downloader {
  import opened ByteStore
  import opened FragmentAttempt
  import opened Engine

  /** `completed` as `plan` treats it: unknown indices are skipped, repeated ones change nothing. */
  function Resumed(completed: seq<nat>): set<nat> {
    set i | i in completed
  }

  class DownloadTask {
    const cfg: Config
    var disk: Disk
    var orphans: seq<Orphan>
    var workers: seq<Worker>
    var fragments: seq<FragmentRecord>
    var free: nat
    var state: Driver
    var reported: set<nat>

    ghost function Snapshot(): State
      reads this
    {
      State(disk, orphans, workers, fragments, free, state, reported)
    }

    constructor (cfg: Config, disk: Disk, orphans: seq<Orphan>)
      ensures this.cfg == cfg && this.disk == disk && this.orphans == orphans
      ensures fragments == [] && workers == []
    {
      this.cfg, this.disk, this.orphans := cfg, disk, orphans;
      workers, fragments, free, state, reported := [], [], cfg.permits, Running, {};
    }

    /** Creates the records and marks the completed fragments Done; the two transitions it makes
        for each of them are always legal. */
    method Plan(completed: seq<nat>) returns (ok: bool)
      modifies this`fragments, this`reported
      ensures ok && reported == Resumed(completed)
      ensures fragments == seq(|cfg.frags|, i requires 0 <= i < |cfg.frags| =>
                if i in completed then PlannedRecord(cfg, Resumed(completed), i)
                else FragmentRecord(cfg.frags[i], Pending, 0))
    {
      fragments := seq(|cfg.frags|, i requires 0 <= i < |cfg.frags| => FragmentRecord(cfg.frags[i], Pending, 0));
      for k := 0 to |completed|
        invariant |fragments| == |cfg.frags|
        invariant forall i | 0 <= i < |fragments| ::
                    fragments[i] == if i in completed[..k] then FragmentRecord(cfg.frags[i], FragmentState.Done, cfg.frags[i].size)
                                    else FragmentRecord(cfg.frags[i], Pending, 0)
      {
        var done := completed[k];
        if done < |fragments| && fragments[done].state.Pending? {
          var started := fragments[done].(downloaded := fragments[done].info.size).StartDownload();
          if started.None? {
            return false;
          }
          var finished := started.value.CompleteDownloadFast(started.value.info.size);
          if finished.None? {
            return false;
          }
          fragments := fragments[done := finished.value];
        }
        assert completed[..k + 1] == completed[..k] + [completed[k]];
      }
      assert completed[..|completed|] == completed;
      reported := set i | i in completed;
      ok := true;
    }

    /** Starts one worker per pending fragment; the engine's runs begin in the state it leaves. */
    method SpawnWorkers(ghost completed: seq<nat>) returns (ok: bool)
      requires free == cfg.permits && reported == Resumed(completed)
      requires fragments == seq(|cfg.frags|, i requires 0 <= i < |cfg.frags| =>
                 if i in completed then PlannedRecord(cfg, Resumed(completed), i)
                 else FragmentRecord(cfg.frags[i], Pending, 0))
      modifies this`fragments, this`workers, this`state
      ensures ok && Snapshot() == Initial(cfg, disk, orphans, Resumed(completed))
    {
      state, workers := Running, [];
      for i := 0 to |fragments|
        invariant |workers| == i && |fragments| == |cfg.frags| && state.Running?
        invariant forall j | 0 <= j < i :: fragments[j] == PlannedRecord(cfg, Resumed(completed), j)
        invariant forall j | i <= j < |fragments| :: fragments[j] == old(fragments)[j]
        invariant forall j | 0 <= j < i :: workers[j] == Worker(0, 0, 0, if j in Resumed(completed) then Joined else Deciding)
      {
        if fragments[i].state.Pending? {
          var started := fragments[i].StartDownload();
          if started.None? {
            return false;
          }
          fragments := fragments[i := started.value];
          workers := workers + [Worker(0, 0, 0, Deciding)];
        } else {
          workers := workers + [Worker(0, 0, 0, Joined)];
        }
      }
      ghost var initial := Initial(cfg, disk, orphans, Resumed(completed));
      assert workers == initial.workers;
      assert fragments == initial.records;
      ok := true;
    }

    /** One turn of the join loop: the next finished task's record is completed, or the download
        turns to failure. */
    method JoinNext(i: nat)
      requires i < |workers| == |cfg.frags| == |fragments|
      modifies this`workers, this`fragments, this`state
      ensures Snapshot() == StepJoin(cfg, old(Snapshot()), i)
    {
      if state.Running? && workers[i].phase.Panicked? {
        workers := workers[i := workers[i].(phase := Aborted)];
        state := Draining;
        return;
      }
      if !state.Running? || !workers[i].phase.Exited? {
        return;
      }
      var outcome := workers[i].phase.outcome;
      if outcome.Error? {
        fragments := fragments[i := fragments[i].ForceFail()];
        workers := workers[i := workers[i].(phase := Aborted)];
        state := Draining;
        return;
      }
      var done := fragments[i].CompleteDownloadFast(outcome.total);
      if done.None? {
        state := IllegalTransition;
        return;
      }
      fragments := fragments[i := done.value];
      workers := workers[i := workers[i].(phase := Joined)];
    }

    /** Aborts whatever still runs and waits for it; nothing is left running, and what it was
        writing may still land. */
    method AbortRemaining() returns (ghost events: seq<Event>)
      requires |workers| == |cfg.frags| == |fragments| && state.Draining?
      modifies this`workers, this`orphans, this`free, this`state
      ensures state == Driver.Failed && AllOver(workers)
      ensures Snapshot() == RunEvents(cfg, old(Snapshot()), events)
    {
      events := [];
      for i := 0 to |workers|
        invariant |workers| == |cfg.frags| && state.Draining? && unchanged(`fragments)
        invariant forall j | 0 <= j < i :: Over(workers[j].phase)
        invariant Snapshot() == RunEvents(cfg, old(Snapshot()), events)
      {
        RunAppend(cfg, old(Snapshot()), events, Abort(i));
        events := events + [Abort(i)];
        if !Over(workers[i].phase) {
          var p := workers[i].phase;
          if p.Active? {
            free := free + 1;
          }
          orphans := orphans + Abandon(cfg, i, p);
          workers := workers[i := workers[i].(phase := Aborted)];
        }
      }
      RunAppend(cfg, old(Snapshot()), events, Drained);
      events := events + [Drained];
      state := Driver.Failed;
    }
  }
}
