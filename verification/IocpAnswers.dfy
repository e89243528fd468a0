/** From the writer's side: every write is answered once, and gets just that answer; and as long as
    anything is unfinished something can move, but not for ever. */
module IocpAnswers {
  import opened ByteStore
  import opened Iocp

  // ---- One answer for every write ----

  /** What the event answers write `op`, if it does: `WriteFile` at once, or the kernel when it is done. */
  function Answered(s: State, e: Event, op: nat): Option<Result>
    requires op < |s.writers|
  {
    match e
    case WriteFileOk(k, n) => if k == op && s.writers[op].control.Registered? then Some(Ok(n)) else None
    case WriteFileError(k, status) => if k == op && s.writers[op].control.Registered? then Some(Err(status)) else None
    case Complete(a, result) => if a in s.kernel && s.kernel[a].op == op then Some(result) else None
    case _ => None
  }

  /** The answer write `op` has had. */
  function Answer(events: seq<Event>, op: nat): Option<Result>
    decreases |events|
  {
    var n := |events|;
    if n == 0 then None
    else
      var s := Run(events[..n - 1]);
      if op < |s.writers| && Answered(s, events[n - 1], op).Some? then Answered(s, events[n - 1], op)
      else Answer(events[..n - 1], op)
  }

  /** What writer and history say about the answer. */
  predicate Agrees(w: Writer, answer: Option<Result>) {
    && (w.control.Holding? || w.control.Registered? || w.io.InKernel? ==> answer.None?)
    && (w.control.SyncReturned? ==> answer == Some(Ok(w.control.n)))
    && (w.control.Refused? ==> answer == Some(Err(w.control.status)))
    && (w.io.Posted? || w.io.Taken? || w.io.Resolved? ==> answer == Some(w.io.result))
    && (w.control.Finished? ==> answer == Some(w.control.result))
  }

  predicate OfWriter(e: Event) {
    !e.Acquire? && !e.Complete? && !e.Lookup? && !e.Send? && !e.Release?
  }

  lemma WriterFacts(s: State, op: nat)
    requires Inv(s) && op < |s.writers|
    ensures var w := s.writers[op];
            && (w.control.Holding? || w.control.Registered? || w.control.SyncReturned? || w.control.Refused? <==> w.io.Idle?)
            && (w.control.Finished? ==> w.io.Resolved?)
            && (op in s.sent ==> w.io == Resolved(s.sent[op]))
            && (w.io.Resolved? && !w.control.Finished? ==> op in s.sent)
  {
    assert WriterInv(s, op);
    if op in s.sent {
      assert SentInv(s, op);
    }
  }

  lemma OthersStay(s: State, i: nat, e: Event, op: nat)
    requires i < |s.writers| && op < |s.writers| && op != i && OfWriter(e) && e.op == i
    ensures |StepWriter(s, i, e).writers| == |s.writers| && StepWriter(s, i, e).writers[op] == s.writers[op]
    ensures Answered(s, e, op).None?
  {
  }

  lemma WriterStepAgrees(s: State, i: nat, e: Event, op: nat, answer: Option<Result>)
    requires Inv(s) && i < |s.writers| && op < |s.writers| && Agrees(s.writers[op], answer)
    requires OfWriter(e) && e.op == i
    ensures op < |StepWriter(s, i, e).writers|
    ensures Agrees(StepWriter(s, i, e).writers[op], if Answered(s, e, op).Some? then Answered(s, e, op) else answer)
    ensures Answered(s, e, op).Some? ==> answer.None?
  {
    WriterFacts(s, i);
    hide Inv, Links;
    if op != i {
      hide StepWriter, Agrees, Answered;
      OthersStay(s, i, e, op);
    }
  }

  lemma CompleteAgrees(s: State, a: Addr, result: Result, op: nat, answer: Option<Result>)
    requires Inv(s) && op < |s.writers| && Agrees(s.writers[op], answer)
    ensures var r, now := StepComplete(s, a, result), Answered(s, Complete(a, result), op);
            && op < |r.writers| && Agrees(r.writers[op], if now.Some? then now else answer)
            && (now.Some? ==> answer.None?)
  {
    WriterFacts(s, op);
    if a in s.kernel {
      KernelOwner(s, a);
    }
    hide Inv;
  }

  lemma LookupAgrees(s: State, op: nat, answer: Option<Result>)
    requires Inv(s) && op < |s.writers| && Agrees(s.writers[op], answer)
    ensures op < |StepLookup(s).writers| && Agrees(StepLookup(s).writers[op], answer)
  {
    WriterFacts(s, op);
    if |s.packets| > 0 {
      PacketOwner(s);
    }
    hide Inv;
  }

  lemma SendAgrees(s: State, op: nat, answer: Option<Result>)
    requires Inv(s) && op < |s.writers| && Agrees(s.writers[op], answer)
    ensures op < |StepSend(s).writers| && Agrees(StepSend(s).writers[op], answer)
  {
    WriterFacts(s, op);
    if s.finishing.InHand? {
      HandOwner(s);
    }
    hide Inv;
  }

  lemma {:induction false} StepAgrees(s: State, e: Event, op: nat, answer: Option<Result>)
    requires Inv(s) && op < |s.writers| && Agrees(s.writers[op], answer)
    ensures op < |Step(s, e).writers|
    ensures Agrees(Step(s, e).writers[op], if Answered(s, e, op).Some? then Answered(s, e, op) else answer)
    ensures Answered(s, e, op).Some? ==> answer.None?
  {
    hide Inv, StepWriter, StepComplete, StepLookup, StepSend, Agrees;
    match e
    case Complete(a, result) => CompleteAgrees(s, a, result, op, answer);
    case Lookup => LookupAgrees(s, op, answer);
    case Send => SendAgrees(s, op, answer);
    case Release =>
    case Acquire(_, _) =>
    case _ =>
      if e.op < |s.writers| {
        WriterStepAgrees(s, e.op, e, op, answer);
      }
  }

  lemma KernelOwner(s: State, a: Addr)
    requires Inv(s) && a in s.kernel
    ensures s.kernel[a].op < |s.writers| && s.writers[s.kernel[a].op].io.InKernel?
  {
    assert KernelInv(s, a);
  }

  lemma PacketOwner(s: State)
    requires Inv(s) && |s.packets| > 0
    ensures var p := s.packets[0];
            && p.addr in s.registry && s.registry[p.addr].op < |s.writers|
            && s.writers[s.registry[p.addr].op].io == Posted(p.result)
  {
    assert PacketInv(s, s.packets[0]);
  }

  lemma HandOwner(s: State)
    requires Inv(s) && s.finishing.InHand?
    ensures var f := s.finishing;
            f.op < |s.writers| && s.writers[f.op].io == if f.sent then Resolved(f.result) else Taken(f.result)
  {
    assert FinishingInv(s);
  }

  lemma {:induction false} NotYetAnswered(events: seq<Event>, op: nat)
    requires op >= |Run(events).writers|
    ensures Answer(events, op).None?
    decreases |events|
  {
    var n := |events|;
    if n == 0 {
    } else {
      WritersStay(Run(events[..n - 1]), events[n - 1]);
      NotYetAnswered(events[..n - 1], op);
    }
  }

  lemma WritersStay(s: State, e: Event)
    ensures |s.writers| <= |Step(s, e).writers| <= |s.writers| + 1
    ensures |Step(s, e).writers| == |s.writers| + 1 ==>
              Step(s, e).writers[|s.writers|].control.Holding? && Step(s, e).writers[|s.writers|].io.Idle?
  {
    hide StepWriter;
    if OfWriter(e) && e.op < |s.writers| {
      SameWriters(s, e.op, e);
    }
  }

  lemma SameWriters(s: State, i: nat, e: Event)
    requires i < |s.writers|
    ensures |StepWriter(s, i, e).writers| == |s.writers|
  {
  }

  /** The answer after one more event. */
  function Next(s: State, e: Event, op: nat, answer: Option<Result>): Option<Result> {
    if op < |s.writers| && Answered(s, e, op).Some? then Answered(s, e, op) else answer
  }

  lemma NextAgrees(s: State, e: Event, op: nat, answer: Option<Result>)
    requires Inv(s) && op < |Step(s, e).writers|
    requires if op < |s.writers| then Agrees(s.writers[op], answer) else answer.None?
    ensures Agrees(Step(s, e).writers[op], Next(s, e, op, answer))
  {
    hide Inv, Step, Agrees, Answered;
    if op < |s.writers| {
      StepAgrees(s, e, op, answer);
    } else {
      WritersStay(s, e);
      HoldingAgrees(Step(s, e).writers[op]);
    }
  }

  lemma LastEvent(events: seq<Event>, op: nat)
    requires |events| > 0
    ensures var init, e := events[..|events| - 1], events[|events| - 1];
            Run(events) == Step(Run(init), e) && Answer(events, op) == Next(Run(init), e, op, Answer(init, op))
  {
    hide Step, Answered;
  }

  /** Whatever is reported of a write on its way, through packet, poller and channel, and what its
      future returns, is the answer `WriteFile` or the kernel gave. */
  lemma {:induction false} EveryWriteGetsItsAnswer(events: seq<Event>, op: nat)
    requires op < |Run(events).writers|
    ensures Agrees(Run(events).writers[op], Answer(events, op))
    decreases |events|
  {
    if |events| == 0 {
    } else {
      var init, e := events[..|events| - 1], events[|events| - 1];
      LastEvent(events, op);
      Reachable(init);
      hide Run, Answer, Step, Agrees, Next, Inv;
      if op < |Run(init).writers| {
        EveryWriteGetsItsAnswer(init, op);
      } else {
        NotYetAnswered(init, op);
      }
      NextAgrees(Run(init), e, op, Answer(init, op));
    }
  }

  /** And no write is answered twice. */
  lemma AnsweredOnce(events: seq<Event>, e: Event, op: nat)
    requires op < |Run(events).writers| && Answered(Run(events), e, op).Some?
    ensures Answer(events, op).None? && Answer(events + [e], op) == Answered(Run(events), e, op)
  {
    hide Inv, Agrees, Step, Answered;
    Reachable(events);
    EveryWriteGetsItsAnswer(events, op);
    StepAgrees(Run(events), e, op, Answer(events, op));
    assert (events + [e])[..|events|] == events;
    LastEvent(events + [e], op);
  }

  lemma HoldingAgrees(w: Writer)
    requires w.control.Holding? && w.io.Idle?
    ensures Agrees(w, None)
  {
  }

  /** When all is quiet a future that still waits returns as soon as it looks, and with its answer. */
  lemma QuietFuturesReturn(events: seq<Event>, op: nat)
    requires Quiet(Run(events)) && op < |Run(events).writers| && Run(events).writers[op].control.Awaiting?
    ensures var w := Step(Run(events), Receive(op)).writers[op];
            w.control.Finished? && Answer(events, op) == Some(w.control.result)
  {
    var s := Run(events);
    Reachable(events);
    QuietMeansResolved(events);
    EveryWriteGetsItsAnswer(events, op);
    WriterFacts(s, op);
    hide Inv, Quiet, Run, Answer;
    ReceiveReturns(s, op);
  }

  lemma ReceiveReturns(s: State, op: nat)
    requires op < |s.writers| && s.writers[op].control.Awaiting? && op in s.sent
    ensures Step(s, Receive(op)).writers[op].control == Finished(s.sent[op])
  {
  }

  // ---- Something moves, and not for ever ----

  /** How many steps a write has before it at most: those of its future, and those of its result. */
  function Left(w: Writer): nat {
    (match w.control
     case Holding => 8
     case Registered => 7
     case SyncReturned(_) => 6
     case Refused(_) => 6
     case Submitted => 2
     case Awaiting => 1
     case Finished(_) => 0
     case Dropped => 0)
    + (match w.io
       case InKernel => 4
       case Posted(_) => 3
       case Taken(_) => 2
       case _ => 0)
  }

  function LeftOver(writers: seq<Writer>): nat {
    var n := |writers|;
    if n == 0 then 0 else LeftOver(writers[..n - 1]) + Left(writers[n - 1])
  }

  /** The poller's hand has one more thing to do once the result is sent. */
  function Work(s: State): nat {
    LeftOver(s.writers) + if s.finishing.InHand? && s.finishing.sent then 1 else 0
  }

  lemma {:induction false} LeftSet(writers: seq<Writer>, i: nat, w: Writer)
    requires i < |writers|
    ensures LeftOver(writers[i := w]) + Left(writers[i]) == LeftOver(writers) + Left(w)
    decreases |writers|
  {
    var n := |writers|;
    var changed := writers[i := w];
    if i == n - 1 {
      assert changed[..n - 1] == writers[..n - 1];
    } else {
      LeftSet(writers[..n - 1], i, w);
      assert changed[..n - 1] == writers[..n - 1][i := w];
    }
  }

  lemma WriterStepLeft(s: State, i: nat, e: Event)
    requires Inv(s) && i < |s.writers| && OfWriter(e) && e.op == i && StepWriter(s, i, e) != s
    ensures var r := StepWriter(s, i, e);
            && r.finishing == s.finishing && |r.writers| == |s.writers| && r.writers == s.writers[i := r.writers[i]]
            && Left(r.writers[i]) < Left(s.writers[i])
  {
    WriterFacts(s, i);
    hide Inv;
  }

  lemma {:induction false} WriterStepShrinks(s: State, i: nat, e: Event)
    requires Inv(s) && i < |s.writers| && OfWriter(e) && e.op == i
    requires StepWriter(s, i, e) != s
    ensures Work(StepWriter(s, i, e)) < Work(s)
  {
    hide Inv, StepWriter, Left, LeftOver;
    WriterStepLeft(s, i, e);
    LeftSet(s.writers, i, StepWriter(s, i, e).writers[i]);
  }

  /** Every step but a new write takes something off the work left. */
  lemma {:induction false} StepsShrink(s: State, e: Event)
    requires Inv(s) && !e.Acquire? && Step(s, e) != s
    ensures Work(Step(s, e)) < Work(s)
  {
    hide Inv, StepWriter, LeftOver;
    var r := Step(s, e);
    match e
    case Acquire(_, _) =>
    case Complete(a, _) =>
      KernelOwner(s, a);
      LeftSet(s.writers, s.kernel[a].op, r.writers[s.kernel[a].op]);
    case Lookup =>
      PacketOwner(s);
      var op := s.registry[s.packets[0].addr].op;
      LeftSet(s.writers, op, r.writers[op]);
    case Send =>
      HandOwner(s);
      LeftSet(s.writers, s.finishing.op, r.writers[s.finishing.op]);
    case Release =>
    case _ =>
      if e.op < |s.writers| {
        WriterStepShrinks(s, e.op, e);
      }
  }

  /** Every write has been answered, and its future has returned or was dropped. */
  predicate Settled(s: State) {
    Quiet(s) && forall op | 0 <= op < |s.writers| :: !s.writers[op].control.Awaiting?
  }

  /** As long as not everything is settled, somebody can take a step: a writer, the poller, or the
      kernel with a request it still has. */
  lemma {:induction false} UnsettledMoves(s: State) returns (e: Event)
    requires Inv(s) && !Settled(s)
    ensures !e.Acquire? && Step(s, e) != s
  {
    if s.finishing.InHand? {
      HandOwner(s);
      e := if s.finishing.sent then Release else Send;
    } else if |s.packets| > 0 {
      PacketOwner(s);
      assert |s.packets[1..]| < |s.packets|;
      e := Lookup;
    } else if a :| a in s.kernel {
      KernelOwner(s, a);
      e := Complete(a, Ok(0));
      assert a !in (s.kernel - {a});
    } else {
      assert s.kernel.Keys == {};
      e := WriterMoves(s);
    }
  }

  lemma WriterMoves(s: State) returns (e: Event)
    requires Inv(s) && !Settled(s) && s.finishing.Nothing? && |s.packets| == 0 && s.kernel.Keys == {}
    ensures !e.Acquire? && Step(s, e) != s
  {
    var op: nat :| op < |s.writers| && !s.writers[op].control.Finished? && !s.writers[op].control.Dropped?;
    assert WriterInv(s, op);
    var c := s.writers[op].control;
    e := match c
         case Holding => Register(op)
         case Registered => WriteFilePending(op)
         case SyncReturned(_) => Return(op)
         case Refused(_) => Return(op)
         case Submitted => Arm(op)
         case _ => Receive(op);
    hide Inv, WriterInv;
    assert Step(s, e).writers[op].control != c;
  }

  /** How many events of the run have changed anything. */
  function Turns(events: seq<Event>): nat {
    var n := |events|;
    if n == 0 then 0 else Turns(events[..n - 1]) + if Run(events) != Run(events[..n - 1]) then 1 else 0
  }

  function NewWrites(events: seq<Event>): nat {
    var n := |events|;
    if n == 0 then 0 else NewWrites(events[..n - 1]) + if events[n - 1].Acquire? then 1 else 0
  }

  lemma AcquireAddsEight(s: State, e: Event)
    requires e.Acquire?
    ensures Work(Step(s, e)) <= Work(s) + 8
  {
    if Step(s, e) != s {
      var w := Step(s, e).writers[|s.writers|];
      assert (s.writers + [w])[..|s.writers|] == s.writers;
    }
  }

  /** Nothing goes on for ever: no run takes more than nine steps for each write begun, and what is
      still to do is paid for. */
  lemma {:induction false} WorkIsBounded(events: seq<Event>)
    ensures Turns(events) + Work(Run(events)) <= 9 * NewWrites(events)
    decreases |events|
  {
    var n := |events|;
    if n == 0 {
    } else {
      var init, e := events[..n - 1], events[n - 1];
      WorkIsBounded(init);
      Reachable(init);
      hide Inv, Work, Step;
      if e.Acquire? {
        AcquireAddsEight(Run(init), e);
      } else if Run(events) != Run(init) {
        StepsShrink(Run(init), e);
      }
    }
  }

  /** Nothing but a new write can change the state any more. */
  ghost predicate Stopped(s: State) {
    forall e: Event | !e.Acquire? :: Step(s, e) == s
  }

  /** So every run that is taken as far as it goes, new writes apart, ends with every write answered,
      every future returned or dropped, the registry empty, and every OVERLAPPED back in the pool. */
  lemma EverythingSettles(events: seq<Event>)
    ensures var s := Run(events);
            Stopped(s) ==> Settled(s) && s.registry == map[] && forall a | a in s.live :: a in s.pool
  {
    var s := Run(events);
    Reachable(events);
    hide Inv, Run, Step, Settled;
    if Stopped(s) {
      if !Settled(s) {
        var e := UnsettledMoves(s);
      }
      SettledIsEmpty(s);
    }
  }

  lemma SettledIsEmpty(s: State)
    requires Inv(s) && Settled(s)
    ensures s.registry == map[] && forall a | a in s.live :: a in s.pool
  {
    forall a: Addr
      ensures a !in s.registry
    {
      QuietRegistry(s, a);
    }
    forall a | a in s.live
      ensures a in s.pool
    {
      assert Places(s, a) == 1;
      NoneHeld(s.writers, a);
    }
  }
}
