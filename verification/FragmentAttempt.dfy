/** One attempt at downloading a fragment (`download_single_fragment` and `write_all_at`).

    `Step` is the attempt cut at its await points, so that other tasks can run in
    between; the methods below are the loops of the source and are proved to make
    nothing but such steps. */
module FragmentAttempt {
  import opened ByteStore

  /** What the retry loop needs to know of a `DownloadError`. */
  datatype Error = Fatal | Retryable | Throttled(retryAfter: Option<nat>)

  /** 256 KiB: chunks are gathered until this many bytes can be written at once. */
  const WRITE_BATCH_BYTES: nat := 256 * 1024

  /** `written` counts the bytes of the fragment the storage has acknowledged. */
  datatype Attempt =
    | Connecting
    | Reading(written: nat, buf: Bytes)
    | Flushing(written: nat, batch: Bytes, last: bool)
    | Succeeded(total: nat)
    | Failed(error: Error)

  datatype AttemptEvent =
    | Connected
    | Chunk(data: Bytes)
    | StreamEnd
    | Persist(n: nat)                       // write_at returns Ok(n)
    | PersistError(n: nat, error: Error)    // write_at fails after persisting n bytes
    | Interrupt(error: Error)               // connection, stream or control signal ends the attempt

  /** A write whose future was dropped; the backend may still carry out any prefix of it. */
  datatype Orphan = Orphan(owner: nat, pos: nat, data: Bytes)

  /** An attempt, everything its stream has delivered to it, and the disk. */
  datatype Run = Run(attempt: Attempt, delivered: Bytes, disk: Disk)

  predicate Terminal(a: Attempt) {
    a.Succeeded? || a.Failed?
  }

  /** Hands the gathered bytes to `write_all_at`, unless they would run past the fragment. */
  function Flush(len: nat, written: nat, buf: Bytes, last: bool): Attempt {
    if written + |buf| > len then Failed(Retryable) else Flushing(written, buf, last)
  }

  /** The completeness check behind the stream loop. */
  function Finish(len: nat, written: nat): Attempt {
    if written == len then Succeeded(written) else Failed(Retryable)
  }

  function AfterWrite(len: nat, written: nat, rest: Bytes, last: bool): Attempt {
    if |rest| != 0 then Flushing(written, rest, last)
    else if last then Finish(len, written)
    else Reading(written, [])
  }

  /** How many bytes of the current batch the event leaves on the disk. */
  function Persisted(a: Attempt, ev: AttemptEvent): (n: nat)
    ensures n > 0 ==> a.Flushing? && n <= |a.batch|
  {
    if a.Flushing? && (ev.Persist? || ev.PersistError?) && ev.n <= |a.batch| then ev.n else 0
  }

  function NextAttempt(len: nat, a: Attempt, ev: AttemptEvent): Attempt {
    match (a, ev)
    case (Connecting, Connected) => Reading(0, [])
    case (Reading(w, buf), Chunk(data)) =>
      if |buf + data| >= WRITE_BATCH_BYTES then Flush(len, w, buf + data, false)
      else Reading(w, buf + data)
    case (Reading(w, buf), StreamEnd) =>
      if |buf| != 0 then Flush(len, w, buf, true) else Finish(len, w)
    case (Flushing(w, batch, last), Persist(n)) =>
      if n > |batch| then a
      else if n == 0 then Failed(Retryable)
      else AfterWrite(len, w + n, batch[n..], last)
    case (Flushing(w, batch, last), PersistError(n, e)) =>
      if n > |batch| then a else Failed(e)
    case (_, Interrupt(e)) => if Terminal(a) then a else Failed(e)
    case _ => a
  }

  function Step(start: nat, len: nat, r: Run, ev: AttemptEvent): Run {
    var n := Persisted(r.attempt, ev);
    Run(NextAttempt(len, r.attempt, ev),
        if r.attempt.Reading? && ev.Chunk? then r.delivered + ev.data else r.delivered,
        if n == 0 then r.disk else Overlay(r.disk, start + r.attempt.written, r.attempt.batch[..n]))
  }

  function RunAll(start: nat, len: nat, disk: Disk, events: seq<AttemptEvent>): Run
    decreases |events|
  {
    if |events| == 0 then Run(Connecting, [], disk)
    else Step(start, len, RunAll(start, len, disk, events[..|events| - 1]), events[|events| - 1])
  }

  lemma RunAllStart(start: nat, len: nat, disk: Disk)
    ensures RunAll(start, len, disk, []) == Run(Connecting, [], disk)
  {
  }

  lemma RunAllAppend(start: nat, len: nat, disk: Disk, events: seq<AttemptEvent>, ev: AttemptEvent)
    ensures RunAll(start, len, disk, events + [ev]) == Step(start, len, RunAll(start, len, disk, events), ev)
  {
    assert (events + [ev])[..|events|] == events;
  }

  /** How an attempt's counters relate to what its stream has delivered: the buffered bytes
      are the delivered ones not yet written, in order, and never reach past the fragment
      once they are being written. */
  predicate Shape(len: nat, a: Attempt, delivered: Bytes) {
    match a
    case Connecting => delivered == []
    case Reading(w, buf) => w <= len && w <= |delivered| && buf == delivered[w..]
    case Flushing(w, batch, last) => |batch| != 0 && w <= |delivered| <= len && batch == delivered[w..]
    case Succeeded(total) => total == len == |delivered|
    case Failed(_) => true
  }

  lemma ShapeChunk(len: nat, w: nat, buf: Bytes, delivered: Bytes, data: Bytes)
    requires Shape(len, Reading(w, buf), delivered)
    ensures Shape(len, NextAttempt(len, Reading(w, buf), Chunk(data)), delivered + data)
  {
    assert buf + data == (delivered + data)[w..];
  }

  lemma ShapePersist(len: nat, a: Attempt, delivered: Bytes, n: nat)
    requires Shape(len, a, delivered) && a.Flushing?
    ensures Shape(len, NextAttempt(len, a, Persist(n)), delivered)
  {
    if 0 < n <= |a.batch| {
      assert a.batch[n..] == delivered[a.written + n..];
    }
  }

  lemma ShapeStep(start: nat, len: nat, r: Run, ev: AttemptEvent)
    requires Shape(len, r.attempt, r.delivered)
    ensures Shape(len, Step(start, len, r, ev).attempt, Step(start, len, r, ev).delivered)
  {
    hide Overlay;
    match (r.attempt, ev)
    case (Reading(w, buf), Chunk(data)) => ShapeChunk(len, w, buf, r.delivered, data);
    case (Flushing(_, _, _), Persist(n)) => ShapePersist(len, r.attempt, r.delivered, n);
    case _ =>
  }

  /** The disk is the initial one with a prefix of the delivered bytes laid over the fragment's
      range, and this prefix is all of them when the attempt succeeds. */
  ghost predicate Written(start: nat, len: nat, disk0: Disk, r: Run) {
    && Shape(len, r.attempt, r.delivered)
    && match r.attempt
       case Connecting => r.disk == disk0
       case Reading(w, _) => r.disk == Overlay(disk0, start, r.delivered[..w])
       case Flushing(w, _, _) => r.disk == Overlay(disk0, start, r.delivered[..w])
       case Succeeded(_) => r.disk == Overlay(disk0, start, r.delivered)
       case Failed(_) => exists n: nat :: PrefixOnDisk(start, len, disk0, r, n)
  }

  ghost predicate PrefixOnDisk(start: nat, len: nat, disk0: Disk, r: Run, n: nat) {
    n <= len && n <= |r.delivered| && r.disk == Overlay(disk0, start, r.delivered[..n])
  }

  /** Laying the next `n` undelivered bytes down extends the written prefix by `n`. */
  lemma ExtendPrefix(start: nat, disk0: Disk, delivered: Bytes, w: nat, n: nat)
    requires w + n <= |delivered|
    ensures Overlay(Overlay(disk0, start, delivered[..w]), start + w, delivered[w..][..n])
         == Overlay(disk0, start, delivered[..w + n])
  {
    OverlayAppend(disk0, start, delivered[..w], delivered[w..][..n]);
    assert delivered[..w] + delivered[w..][..n] == delivered[..w + n];
  }

  lemma WrittenStep(start: nat, len: nat, disk0: Disk, r: Run, ev: AttemptEvent)
    requires Written(start, len, disk0, r)
    ensures Written(start, len, disk0, Step(start, len, r, ev))
  {
    hide Overlay;
    ShapeStep(start, len, r, ev);
    var r' := Step(start, len, r, ev);
    OverlayNothing(disk0, start);
    match r.attempt
    case Connecting =>
      assert r'.attempt.Failed? ==> PrefixOnDisk(start, len, disk0, r', 0);
    case Reading(w, buf) =>
      assert r'.delivered[..w] == r.delivered[..w];
      assert r.delivered[..|r.delivered|] == r.delivered;
      assert r'.attempt.Failed? ==> PrefixOnDisk(start, len, disk0, r', w);
    case Flushing(w, batch, last) =>
      var n := Persisted(r.attempt, ev);
      ExtendPrefix(start, disk0, r.delivered, w, n);
      assert r'.disk == Overlay(disk0, start, r.delivered[..w + n]);
      assert r.delivered[..|r.delivered|] == r.delivered;
      assert r'.attempt.Failed? ==> PrefixOnDisk(start, len, disk0, r', w + n);
    case Succeeded(_) =>
    case Failed(_) =>
      var n: nat :| PrefixOnDisk(start, len, disk0, r, n);
      assert PrefixOnDisk(start, len, disk0, r', n);
  }

  /** Every attempt, however its stream is cut and however short its writes are, has written a
      prefix of what the stream delivered; on success it has written all of it, and that is
      exactly the fragment's length. */
  lemma {:induction false} AttemptWritesWhatItReceives(start: nat, len: nat, disk0: Disk, events: seq<AttemptEvent>)
    ensures Written(start, len, disk0, RunAll(start, len, disk0, events))
    decreases |events|
  {
    if events != [] {
      var init, last := events[..|events| - 1], events[|events| - 1];
      AttemptWritesWhatItReceives(start, len, disk0, init);
      WrittenStep(start, len, disk0, RunAll(start, len, disk0, init), last);
    }
  }

  /** No attempt, whatever its outcome, changes a byte outside its own range. */
  lemma AttemptStaysInRange(start: nat, len: nat, disk0: Disk, events: seq<AttemptEvent>, p: nat)
    requires p < start || start + len <= p
    ensures SameAt(disk0, RunAll(start, len, disk0, events).disk, p)
  {
    AttemptWritesWhatItReceives(start, len, disk0, events);
    var r := RunAll(start, len, disk0, events);
    if r.attempt.Failed? {
      var n: nat :| PrefixOnDisk(start, len, disk0, r, n);
      OverlayAt(disk0, start, r.delivered[..n]);
    } else if !r.attempt.Connecting? {
      var n := if r.attempt.Succeeded? then len else r.attempt.written;
      OverlayAt(disk0, start, r.delivered[..n]);
      assert r.delivered[..|r.delivered|] == r.delivered;
    }
  }

  /** Two successful attempts that receive the same bytes leave the same disk, no matter how
      these bytes were cut into chunks, batches and short writes. */
  lemma ChunkingIsInvisible(start: nat, len: nat, disk0: Disk, es: seq<AttemptEvent>, fs: seq<AttemptEvent>)
    requires RunAll(start, len, disk0, es).attempt.Succeeded?
    requires RunAll(start, len, disk0, fs).attempt.Succeeded?
    requires RunAll(start, len, disk0, es).delivered == RunAll(start, len, disk0, fs).delivered
    ensures RunAll(start, len, disk0, es).disk == RunAll(start, len, disk0, fs).disk
  {
    AttemptWritesWhatItReceives(start, len, disk0, es);
    AttemptWritesWhatItReceives(start, len, disk0, fs);
  }

  /** The environment lets the attempt run: no interrupt, no failing or stuck write. */
  predicate Benign(ev: AttemptEvent) {
    !ev.Interrupt? && !ev.PersistError? && !(ev.Persist? && ev.n == 0)
  }

  /** An undisturbed attempt that has come to its end succeeded if and only if its stream
      delivered exactly the requested number of bytes; if not, it is worth a retry. */
  lemma {:induction false} SucceedsIffExact(start: nat, len: nat, disk0: Disk, events: seq<AttemptEvent>)
    requires forall ev | ev in events :: Benign(ev)
    ensures var r := RunAll(start, len, disk0, events);
            Terminal(r.attempt) ==> r.attempt == if |r.delivered| == len then Succeeded(len) else Failed(Retryable)
    decreases |events|
  {
    if events != [] {
      var init, last := events[..|events| - 1], events[|events| - 1];
      SucceedsIffExact(start, len, disk0, init);
      AttemptWritesWhatItReceives(start, len, disk0, init);
      AttemptWritesWhatItReceives(start, len, disk0, events);
      assert Benign(last);
      var r := RunAll(start, len, disk0, init);
      match r.attempt
      case Connecting =>
      case Reading(w, buf) =>
      case Flushing(w, batch, l) => assert |batch| == |r.delivered| - w;
      case _ =>
    }
  }

  /** The network, the storage or the control signal ends the attempt with this error. */
  predicate Ends(ev: AttemptEvent, e: Error) {
    (ev.Interrupt? || ev.PersistError?) && ev.error == e
  }

  /** What the attempt itself finds fault with, a stuck write, a stream too long or too short, is
      always worth a retry: any other error is one that came from outside. */
  lemma {:induction false} FailureIsBlamed(start: nat, len: nat, disk0: Disk, events: seq<AttemptEvent>)
    ensures var a := RunAll(start, len, disk0, events).attempt;
            a.Failed? ==> a.error == Retryable || exists ev :: ev in events && Ends(ev, a.error)
    decreases |events|
  {
    hide Overlay;
    if events != [] {
      var init, last := events[..|events| - 1], events[|events| - 1];
      FailureIsBlamed(start, len, disk0, init);
      var a := RunAll(start, len, disk0, init).attempt;
      if a.Failed? && a.error != Retryable {
        var ev :| ev in init && Ends(ev, a.error);
        assert ev in events;
      }
      assert last in events;
    }
  }

  /** Memory is bounded: an attempt never holds 256 KiB while it reads, nor in its closing write. */
  lemma {:induction false} BufferIsBounded(start: nat, len: nat, disk0: Disk, events: seq<AttemptEvent>)
    ensures var a := RunAll(start, len, disk0, events).attempt;
            (a.Reading? ==> |a.buf| < 262_144) && (a.Flushing? && a.last ==> |a.batch| < 262_144)
    decreases |events|
  {
    if |events| == 0 {
    } else {
      BufferIsBounded(start, len, disk0, events[..|events| - 1]);
    }
  }

  /** And small writes are avoided: less than 256 KiB is handed to the storage only when the stream has
      ended. */
  lemma WritesAreGathered(start: nat, len: nat, disk0: Disk, events: seq<AttemptEvent>, ev: AttemptEvent)
    requires RunAll(start, len, disk0, events).attempt.Reading?
    requires RunAll(start, len, disk0, events + [ev]).attempt.Flushing?
    ensures var a := RunAll(start, len, disk0, events + [ev]).attempt;
            if ev.StreamEnd? then a.last && |a.batch| < 262_144 else !a.last && |a.batch| >= 262_144
  {
    BufferIsBounded(start, len, disk0, events);
    RunAllAppend(start, len, disk0, events, ev);
  }

  // ----- The loops of the source -----

  datatype Outcome = Done(total: nat) | Error(error: Error)

  datatype StreamItem = Data(data: Bytes) | StreamError(error: Error)

  function Concat(items: seq<StreamItem>): Bytes {
    if items == [] then []
    else (if items[0].Data? then items[0].data else []) + Concat(items[1..])
  }

  lemma ConcatAppend(items: seq<StreamItem>, item: StreamItem)
    ensures Concat(items + [item]) == Concat(items) + if item.Data? then item.data else []
  {
    if items != [] {
      assert (items + [item])[1..] == items[1..] + [item];
    }
  }

  // The methods take the errors that network, storage and control signal may come up with as `env`.

  /** Writes the whole batch, however short the single writes are; a failure, a write that
      makes no progress or the control signal leave the first `n` bytes behind. */
  method WriteAllAt(storage: Storage, pos0: nat, batch0: Bytes, env: set<Error>) returns (r: Outcome, ghost n: nat)
    requires env != {}
    modifies storage
    ensures r.Error? ==> r.error == Retryable || r.error in env
    ensures n <= |batch0| && storage.content == Overlay(old(storage.content), pos0, batch0[..n])
    ensures r.Done? ==> r.total == n == |batch0|
  {
    hide Overlay;
    ghost var disk := storage.content;
    var pos, batch, totalWritten: nat := pos0, batch0, 0;
    OverlayNothing(disk, pos0);
    while |batch| != 0
      invariant totalWritten <= |batch0| && pos == pos0 + totalWritten && batch == batch0[totalWritten..]
      invariant storage.content == Overlay(disk, pos0, batch0[..totalWritten])
      decreases |batch|
    {
      var write, k := storage.WriteAt(pos, batch);
      ExtendPrefix(pos0, disk, batch0, totalWritten, k);
      var interrupted: bool := *;
      if interrupted || write.WriteFailed? {
        // The control signal wins the race against the write, or the write fails.
        var e :| e in env;
        return Error(e), totalWritten + k;
      }
      var written := write.n;
      if written == 0 {
        return Error(Retryable), totalWritten;
      }
      pos, totalWritten, batch := pos + written, totalWritten + written, batch[written..];
    }
    r, n := Done(totalWritten), totalWritten;
  }

  /** The guard in front of `write_all_at`, taken at both of its call sites: a batch that would
      run past the fragment is refused before any of it is written. */
  method FlushBuffer(storage: Storage, start: nat, expectedLen: nat, totalWritten: nat, writeBuf: Bytes, env: set<Error>,
                     ghost last: bool, ghost disk0: Disk, ghost events: seq<AttemptEvent>)
    returns (r: Outcome, ghost log: seq<AttemptEvent>)
    requires env != {} && |writeBuf| != 0 && RunAll(start, expectedLen, disk0, events).disk == storage.content
    requires RunAll(start, expectedLen, disk0, events).attempt == Flush(expectedLen, totalWritten, writeBuf, last)
    modifies storage
    ensures r.Error? ==> r.error == Retryable || r.error in env
    ensures r.Done? ==> r.total == |writeBuf|
    ensures RunAll(start, expectedLen, disk0, log)
         == Run(if r.Done? then AfterWrite(expectedLen, totalWritten + |writeBuf|, [], last) else Failed(r.error),
                RunAll(start, expectedLen, disk0, events).delivered, storage.content)
  {
    hide Overlay, RunAll;
    if totalWritten + |writeBuf| > expectedLen {
      return Error(Retryable), events;
    }
    ghost var n;
    r, n := WriteAllAt(storage, start + totalWritten, writeBuf, env);
    ghost var ev := if r.Done? then Persist(n) else PersistError(n, r.error);
    RunAllAppend(start, expectedLen, disk0, events, ev);
    OverlayNothing(RunAll(start, expectedLen, disk0, events).disk, start + totalWritten);
    log := events + [ev];
  }

  /** The loop over the stream and the final flush. The attempt's run ends in the outcome that is
      returned; an attempt that is done has taken the whole stream. */
  method ReadAndWrite(storage: Storage, stream: seq<StreamItem>, start: nat, expectedLen: nat, env: set<Error>)
    returns (r: Outcome, ghost log: seq<AttemptEvent>)
    requires env != {}
    modifies storage
    ensures r.Error? ==> r.error == Retryable || r.error in env || StreamError(r.error) in stream
    ensures var run := RunAll(start, expectedLen, old(storage.content), log);
            && run.disk == storage.content
            && run.attempt == (if r.Done? then Finish(expectedLen, r.total) else Failed(r.error))
            && (r.Done? ==> run.delivered == Concat(stream))
  {
    hide Overlay, RunAll;
    ghost var disk0 := storage.content;
    RunAllStart(start, expectedLen, disk0);
    RunAllAppend(start, expectedLen, disk0, [], Connected);
    log := [] + [Connected];

    var totalWritten: nat, writeBuf: Bytes := 0, [];
    assert stream[..0] == [];
    for i := 0 to |stream|
      invariant RunAll(start, expectedLen, disk0, log)
             == Run(Reading(totalWritten, writeBuf), Concat(stream[..i]), storage.content)
    {
      var interrupted: bool := *;
      if interrupted || stream[i].StreamError? {
        var signal :| signal in env;
        var e := if interrupted then signal else stream[i].error;
        RunAllAppend(start, expectedLen, disk0, log, Interrupt(e));
        return Error(e), log + [Interrupt(e)];
      }
      var chunk := stream[i].data;
      assert stream[..i + 1] == stream[..i] + [stream[i]];
      ConcatAppend(stream[..i], stream[i]);
      RunAllAppend(start, expectedLen, disk0, log, Chunk(chunk));
      log := log + [Chunk(chunk)];
      writeBuf := writeBuf + chunk;
      if |writeBuf| >= WRITE_BATCH_BYTES {
        var w;
        w, log := FlushBuffer(storage, start, expectedLen, totalWritten, writeBuf, env, false, disk0, log);
        if w.Error? {
          return w, log;
        }
        totalWritten, writeBuf := totalWritten + w.total, [];
      }
    }
    assert stream[..|stream|] == stream;

    RunAllAppend(start, expectedLen, disk0, log, StreamEnd);
    log := log + [StreamEnd];
    if |writeBuf| != 0 {
      var w;
      w, log := FlushBuffer(storage, start, expectedLen, totalWritten, writeBuf, env, true, disk0, log);
      if w.Error? {
        return w, log;
      }
      totalWritten := totalWritten + w.total;
    }
    r := Done(totalWritten);
  }

  /** One attempt at the range `[start, end]` of the file. It makes a run of `Step`s, so all
      that is proved about runs holds of it; success means the stream's bytes, all of them,
      are on the disk and are as many as the range has. */
  method DownloadSingleFragment(storage: Storage, stream: seq<StreamItem>, start: nat, end: nat, env: set<Error>)
    returns (r: Outcome, ghost log: seq<AttemptEvent>)
    requires env != {}
    modifies storage
    ensures end < start ==> r.Error? && storage.content == old(storage.content)
    ensures start <= end ==>
              var run := RunAll(start, end - start + 1, old(storage.content), log);
              run.disk == storage.content && run.attempt == if r.Done? then Succeeded(r.total) else Failed(r.error)
    ensures r.Done? ==> r.total == |Concat(stream)| == end - start + 1
    ensures r.Done? ==> storage.content == Overlay(old(storage.content), start, Concat(stream))
    ensures r.Error? ==> r.error == Retryable || r.error in env || StreamError(r.error) in stream
  {
    hide Overlay, RunAll;
    ghost var disk0 := storage.content;
    var interrupted: bool := *;
    if interrupted {
      var e :| e in env;
      if start <= end {
        RunAllStart(start, end - start + 1, disk0);
        RunAllAppend(start, end - start + 1, disk0, [], Interrupt(e));
      }
      return Error(e), [] + [Interrupt(e)];
    }
    if end < start {
      return Error(Retryable), [];
    }
    var expectedLen := end - start + 1;
    r, log := ReadAndWrite(storage, stream, start, expectedLen, env);
    AttemptWritesWhatItReceives(start, expectedLen, disk0, log);
    if r.Done? && r.total != expectedLen {
      r := Error(Retryable);
    }
  }
}
