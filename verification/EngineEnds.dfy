/** How sessions end: what the records say then, that nothing runs on, and what a write that was given
    up may still do. */
module EngineEnds {
  import opened ByteStore
  import opened FragmentAttempt
  import opened Planner
  import opened RetryPolicy
  import opened Engine
  import opened Sessions

  // ---- Records ----

  /** A record only ever moves forward, by a transition its state machine allows. */
  predicate MovesForward(was: FragmentRecord, now: FragmentRecord) {
    || now == was
    || (was.state.Downloading? && now == was.(state := FragmentState.Done, downloaded := was.info.size))
    || (was.state.Downloading? && now == was.(state := FragmentState.Failed))
  }

  /** Each transition is accepted once, in its place, and refused everywhere else. */
  lemma TransitionsInOrder(r: FragmentRecord, total: nat)
    requires r.state.Pending?
    ensures r.CompleteDownloadFast(total).None? && r.StartDownload().Some?
    ensures var a := r.StartDownload().value;
            && a.info == r.info && a.StartDownload().None? && a.CompleteDownloadFast(total).Some?
            && var b := a.CompleteDownloadFast(total).value;
               && b.info == r.info && b.downloaded == total && b.state == FragmentState.Done
               && b.StartDownload().None? && b.CompleteDownloadFast(total).None?
    ensures var f := r.ForceFail();
            f.info == r.info && f.state.Failed? && f.StartDownload().None? && f.CompleteDownloadFast(total).None?
  {
  }

  /** In every step a record that is not left alone becomes Done, when its worker is joined with
      success, or Failed, when it is joined with an error. */
  lemma RecordsMoveForward(cfg: Config, s: State, e: Event, i: nat)
    requires Inv(cfg, s) && i < |s.records|
    ensures var r := Engine.Step(cfg, s, e);
            && |r.records| == |s.records| && MovesForward(s.records[i], r.records[i])
            && (r.records[i] != s.records[i] ==>
                  && s.driver.Running? && s.workers[i].phase.Exited?
                  && (r.records[i].state.Failed? <==> s.workers[i].phase.outcome.Error?))
  {
    hide Tiled, OrphansInv, ActiveCount, OnDisk, BackoffSecs, Overlay, FragmentAttempt.Step, Abandon;
    assert WorkerInv(cfg, i, s.workers[i], s.records[i], s.disk, i in s.reported, s.driver.Running?);
  }

  predicate NoneFailed(records: seq<FragmentRecord>) {
    forall i | 0 <= i < |records| :: !records[i].state.Failed?
  }

  predicate OnlyFailed(records: seq<FragmentRecord>, i: nat) {
    && i < |records| && records[i].state.Failed?
    && forall j | 0 <= j < |records| && j != i :: !records[j].state.Failed?
  }

  predicate GivingUp(d: Driver) {
    d.Draining? || d.Failed?
  }

  predicate NoPanic(events: seq<Event>) {
    forall e | e in events :: !e.Panic?
  }

  /** What the records and the driver say about failure: there is a failed record if and only if the
      driver gives up, except for the failure of a task that panicked, which leaves no record. */
  ghost predicate Blamed(s: State, panicked: bool) {
    && (!GivingUp(s.driver) ==> NoneFailed(s.records))
    && (GivingUp(s.driver) ==> (panicked && NoneFailed(s.records)) || exists i :: OnlyFailed(s.records, i))
    && (!panicked ==> forall i | 0 <= i < |s.workers| :: !s.workers[i].phase.Panicked?)
  }

  lemma StepIsBlamed(cfg: Config, s: State, e: Event, panicked: bool)
    requires Inv(cfg, s) && Blamed(s, panicked)
    ensures Blamed(Engine.Step(cfg, s, e), panicked || e.Panic?)
  {
    hide Tiled, OrphansInv, OnDisk, ActiveCount, BackoffSecs, Overlay, FragmentAttempt.Step, Abandon, Served;
    var r := Engine.Step(cfg, s, e);
    if r.records == s.records {
    } else {
      assert e.Join?;
      JoinIsBlamed(cfg, s, e.i);
    }
  }

  lemma JoinIsBlamed(cfg: Config, s: State, i: nat)
    requires Inv(cfg, s) && i < |s.workers| && s.driver.Running? && NoneFailed(s.records)
    ensures var r := StepJoin(cfg, s, i);
            || (NoneFailed(r.records) && (r.driver.Running? || s.workers[i].phase.Panicked?))
            || (OnlyFailed(r.records, i) && r.driver.Draining?)
  {
    hide Tiled, OrphansInv, OnDisk, ActiveCount;
    assert WorkerInv(cfg, i, s.workers[i], s.records[i], s.disk, i in s.reported, s.driver.Running?);
  }

  /** Whoever looks at the records can tell what became of a session: while it runs, and when it ends
      well, no record is Failed; when it is given up, and no task panicked, exactly one is: the first that was
      joined with an error. */
  lemma {:induction false} FailureIsRecorded(cfg: Config, c: Checkpoint, events: seq<Event>)
    requires Truthful(cfg, c)
    ensures var s := RunEvents(cfg, Resume(cfg, c), events);
            && Blamed(s, !NoPanic(events))
            && (NoPanic(events) && GivingUp(s.driver) ==> exists i :: OnlyFailed(s.records, i))
    decreases |events|
  {
    var n := |events|;
    if n == 0 {
    } else {
      var init, e := events[..n - 1], events[n - 1];
      assert events == init + [e];
      assert NoPanic(events) <==> NoPanic(init) && !e.Panic?;
      FailureIsRecorded(cfg, c, init);
      ResumeInv(cfg, c);
      RunKeepsInv(cfg, Resume(cfg, c), init);
      StepIsBlamed(cfg, RunEvents(cfg, Resume(cfg, c), init), e, !NoPanic(init));
    }
  }

  // ---- Nothing runs on ----

  predicate Ended(d: Driver) {
    d.Completed? || d.Failed? || d.SyncError?
  }

  lemma StaysEnded(cfg: Config, s: State, e: Event)
    requires |s.workers| == |cfg.frags| == |s.records| && (Ended(s.driver) ==> AllOver(s.workers))
    ensures var r := Engine.Step(cfg, s, e); Ended(r.driver) ==> AllOver(r.workers)
  {
    hide BackoffSecs, Overlay, FragmentAttempt.Step, Abandon, Served;
  }

  /** When a session has ended, in whichever way, every task has been joined or aborted. */
  lemma {:induction false} NothingRunsAfterTheEnd(cfg: Config, c: Checkpoint, events: seq<Event>)
    ensures var s := RunEvents(cfg, Resume(cfg, c), events); Ended(s.driver) ==> AllOver(s.workers)
    decreases |events|
  {
    var n := |events|;
    if n == 0 {
    } else {
      NothingRunsAfterTheEnd(cfg, c, events[..n - 1]);
      StaysEnded(cfg, RunEvents(cfg, Resume(cfg, c), events[..n - 1]), events[n - 1]);
    }
  }

  // ---- Writes that are given up ----

  /** The event ends the task or the attempt of worker `i` from outside. */
  predicate CutsOff(s: State, e: Event, i: nat) {
    e == Panic(i) || (e == Abort(i) && s.driver.Draining?) || (e.Io? && e.i == i && e.ev.Interrupt?)
  }

  /** A write cut off by a control signal, a panic or an abort is not forgotten: the storage may still
      carry out any part of it, and the worker's permit, unless its attempt just failed, is free again. */
  lemma GivenUpWritesMayLand(cfg: Config, s: State, i: nat, e: Event, n: nat)
    requires i < |s.workers| == |cfg.frags| == |s.records| && CutsOff(s, e, i)
    requires s.workers[i].phase.Active? && s.workers[i].phase.attempt.Flushing?
    requires n <= |s.workers[i].phase.attempt.batch|
    ensures var a, r := s.workers[i].phase.attempt, Engine.Step(cfg, s, e);
            && r.disk == s.disk && |r.workers| == |s.workers| && |r.records| == |s.records|
            && (if e.Io? then
                  && r.workers[i].phase == Active(Attempt.Failed(e.ev.error), s.workers[i].phase.delivered)
                  && r.free == s.free
                else r.workers[i].phase == (if e.Panic? then Panicked else Aborted) && r.free == s.free + 1)
            && Engine.Step(cfg, r, Land(|s.orphans|, n)).disk == Overlay(s.disk, Start(cfg, i) + a.written, a.batch[..n])
  {
    hide Overlay, BackoffSecs, Served;
  }
}
