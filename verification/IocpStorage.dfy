/** The storage object itself: its pool, its registry and its completion port, with the operations
    as the source runs them when nothing else comes in between. Each is a run of the protocol's
    steps, so whatever holds of all interleavings holds of it. */
module IocpStorage {
  import opened ByteStore
  import opened Iocp

  /** What `WriteFile` answers. */
  datatype Answer = AtOnce(n: nat) | Failed(status: int) | IoPending

  /** The steps of one `write_at` up to its first wait. */
  function Submission(op: nat, data: Bytes, newBox: Addr, answer: Answer): seq<Event> {
    [Acquire(data, newBox), Register(op)]
    + match answer
      case AtOnce(n) => [WriteFileOk(op, n), Return(op)]
      case Failed(status) => [WriteFileError(op, status), Return(op)]
      case IoPending => [WriteFilePending(op), Arm(op)]
  }

  function Steps(s: State, events: seq<Event>): State
    decreases |events|
  {
    if |events| == 0 then s else Steps(Step(s, events[0]), events[1..])
  }

  lemma StepsCons(s: State, e: Event, rest: seq<Event>)
    ensures Steps(s, [e] + rest) == Steps(Step(s, e), rest)
  {
    assert ([e] + rest)[1..] == rest;
  }

  lemma FourSteps(s: State, a: Event, b: Event, c: Event, d: Event)
    ensures Steps(s, [a, b] + [c, d]) == Step(Step(Step(Step(s, a), b), c), d)
  {
    hide Step;
    StepsCons(s, a, [b, c, d]);
    StepsCons(Step(s, a), b, [c, d]);
    StepsCons(Step(Step(s, a), b), c, [d]);
    StepsCons(Step(Step(Step(s, a), b), c), d, []);
    assert [a, b] + [c, d] == [a] + [b, c, d] && [b] + [c, d] == [b, c, d] && [c] + [d] == [c, d] && [d] + [] == [d];
  }

  /** The addresses the packets are for, in order of arrival. */
  function Addrs(packets: seq<Packet>): seq<Addr> {
    seq(|packets|, k requires 0 <= k < |packets| => packets[k].addr)
  }

  /** How the poller handles one packet. */
  const HANDLING: seq<Event> := [Lookup, Send, Release]

  class IoCpStorage {
    var pool: seq<Addr>
    var registry: map<Addr, Pending>
    var packets: seq<Packet>
    var sent: map<nat, Result>
    ghost var kernel: map<Addr, Pending>
    ghost var writers: seq<Writer>
    ghost var deliveries: seq<nat>
    ghost var live: set<Addr>
    ghost var cancels: seq<(nat, nat)>

    ghost function Snapshot(): State
      reads this
    {
      State(pool, registry, kernel, packets, Nothing, writers, sent, deliveries, live, cancels, false)
    }

    constructor ()
      ensures Snapshot() == Start()
    {
      pool, registry, packets, sent := [], map[], [], map[];
      kernel, writers, deliveries, live, cancels := map[], [], [], {}, [];
    }

    /** The part of `write_at` in front of its wait. When the kernel answers at once, the OVERLAPPED is
        back in the pool and the answer is the result; otherwise registry and kernel share it. */
    method Submit(op: nat, data: Bytes, newBox: Addr, answer: Answer)
      returns (result: Option<Result>, ghost events: seq<Event>)
      requires Inv(Snapshot()) && op == |writers| && newBox !in live
      modifies this
      ensures events == Submission(op, data, newBox, answer)
      ensures Inv(Snapshot()) && Snapshot() == Steps(old(Snapshot()), events)
      ensures result == match answer
                        case AtOnce(n) => Some(Ok(n))
                        case Failed(status) => Some(Err(status))
                        case IoPending => None
      ensures var a := if |old(pool)| > 0 then old(pool)[0] else newBox;
              var rest := if |old(pool)| > 0 then old(pool)[1..] else [];
              if result.Some? then registry == old(registry) && pool == rest + [a]
              else registry == old(registry)[a := Pending(op, data)] && pool == rest && a in kernel
    {
      hide Inv, Step, Steps, Submission;
      events := Submission(op, data, newBox, answer);
      ghost var before := Snapshot();
      StepsKeepInv(before, events);
      FirstStepsTake(before, op, data, newBox);
      SubmissionState(before, op, data, newBox, answer);
      var a;
      if |pool| > 0 {
        a := pool[0];
        pool := pool[1..];
      } else {
        a := newBox;
        live := live + {newBox};
        assert pool == [];
      }
      registry := registry[a := Pending(op, data)];
      match answer {
        case IoPending =>
          result := None;
          kernel := kernel[a := Pending(op, data)];
          writers := writers + [Writer(data, a, Awaiting, InKernel)];
        case AtOnce(n) =>
          result := Some(Ok(n));
        case Failed(status) =>
          result := Some(Err(status));
      }
      if result.Some? {
        if a in registry {
          registry := registry - {a};
          pool := pool + [a];
        }
        assert registry == before.registry;
        writers := writers + [Writer(data, a, Finished(result.value), Resolved(result.value))];
        deliveries := deliveries + [op];
      }
    }

    /** Handles the first packet: its entry leaves the registry, its write is told its result, and its
        OVERLAPPED is free again. */
    method CompletePendingWrite()
      requires Inv(Snapshot()) && |packets| > 0
      modifies this
      ensures Inv(Snapshot()) && Snapshot() == Steps(old(Snapshot()), HANDLING)
      ensures var p := old(packets)[0];
              && p.addr in old(registry) && registry == old(registry) - {p.addr}
              && sent == old(sent)[old(registry)[p.addr].op := p.result]
              && pool == old(pool) + [p.addr] && packets == old(packets)[1..]
    {
      hide Inv, Steps, Step;
      PollOne(Snapshot());
      var p := packets[0];
      packets := packets[1..];
      var pending := registry[p.addr];
      registry := registry - {p.addr};
      sent := sent[pending.op := p.result];
      writers := writers[pending.op := writers[pending.op].(io := Resolved(p.result))];
      deliveries := deliveries + [pending.op];
      pool := pool + [p.addr];
    }

    /** The poller takes every packet that has arrived, in order: each finds its entry, tells its own
        write its own result, and returns its OVERLAPPED to the pool. */
    method PollAll() returns (ghost events: seq<Event>)
      requires Inv(Snapshot())
      modifies this
      ensures Inv(Snapshot()) && Snapshot() == Steps(old(Snapshot()), events)
      ensures packets == [] && pool == old(pool) + Addrs(old(packets))
      ensures forall p | p in old(packets) ::
                p.addr in old(registry) && p.addr !in registry
                && var op := old(registry)[p.addr].op; op in sent && sent[op] == p.result
    {
      hide Inv, Steps, Step;
      events := [];
      ghost var before := Snapshot();
      ghost var k := 0;
      NoSteps(before);
      AllWait(before);
      while |packets| > 0
        invariant Inv(Snapshot()) && Snapshot() == Steps(before, events)
        invariant k + |packets| == |before.packets| && packets == before.packets[k..]
        invariant pool == before.pool + Addrs(before.packets[..k])
        invariant forall j | 0 <= j < k :: Told(before, Snapshot(), before.packets[j])
        invariant forall j | k <= j < |before.packets| :: Waits(before, Snapshot(), before.packets[j])
        decreases |packets|
      {
        ghost var now := Snapshot();
        CompletePendingWrite();
        StepsConcat(before, events, HANDLING);
        events := events + HANDLING;
        PollStays(before, now, Snapshot(), k);
        k := k + 1;
      }
      assert before.packets[..k] == before.packets;
      forall p | p in before.packets
        ensures Told(before, Snapshot(), p)
      {
        ghost var j :| 0 <= j < |before.packets| && before.packets[j] == p;
        assert Told(before, Snapshot(), before.packets[j]);
      }
    }

    /** The guard of a dropped future: it asks the kernel to cancel whatever the registry has at its
        address, and frees nothing. */
    method DropGuard(op: nat, addr: Addr) returns (cancelled: bool)
      requires Inv(Snapshot()) && op < |writers| && writers[op].control.Awaiting? && writers[op].addr == addr
      modifies this
      ensures Snapshot() == Step(old(Snapshot()), Drop(op)) && Inv(Snapshot())
      ensures cancelled <==> addr in registry
      ensures registry == old(registry) && pool == old(pool) && kernel == old(kernel)
    {
      StepKeepsInv(Snapshot(), Drop(op));
      cancelled := addr in registry;
      if cancelled {
        cancels := cancels + [(op, registry[addr].op)];
      }
      writers := writers[op := writers[op].(control := Dropped)];
    }
  }

  // ---- Proofs about the operations ----

  lemma {:induction false} StepsConcat(s: State, first: seq<Event>, second: seq<Event>)
    ensures Steps(s, first + second) == Steps(Steps(s, first), second)
    decreases |first|
  {
    if |first| == 0 {
      assert first + second == second;
    } else {
      StepsConcat(Step(s, first[0]), first[1..], second);
      assert (first + second)[1..] == first[1..] + second;
    }
  }

  lemma {:induction false} StepsKeepInv(s: State, events: seq<Event>)
    requires Inv(s)
    ensures Inv(Steps(s, events))
    decreases |events|
  {
    hide Inv, Step;
    if |events| == 0 {
    } else {
      StepKeepsInv(s, events[0]);
      StepsKeepInv(Step(s, events[0]), events[1..]);
    }
  }

  function Taken(s: State, newBox: Addr): Addr {
    if |s.pool| > 0 then s.pool[0] else newBox
  }

  function AfterRegister(s: State, op: nat, data: Bytes, newBox: Addr): State {
    var a := Taken(s, newBox);
    s.(pool := if |s.pool| > 0 then s.pool[1..] else [],
       live := if |s.pool| > 0 then s.live else s.live + {newBox},
       registry := s.registry[a := Pending(op, data)],
       writers := s.writers + [Writer(data, a, Registered, Idle)])
  }

  /** The address taken is in nobody else's hands, in particular not in the registry. */
  lemma FirstStepsTake(s: State, op: nat, data: Bytes, newBox: Addr)
    requires Inv(s) && op == |s.writers| && newBox !in s.live
    ensures Step(Step(s, Acquire(data, newBox)), Register(op)) == AfterRegister(s, op, data, newBox)
    ensures Taken(s, newBox) !in s.registry
  {
    hide Inv;
    var s1 := Step(s, Acquire(data, newBox));
    StepKeepsInv(s, Acquire(data, newBox));
    assert s1.writers[op].control.Holding?;
    HeldIsFree(s1, op);
    var a := Taken(s, newBox);
    assert (s.writers + [Writer(data, a, Holding, Idle)])[op := Writer(data, a, Registered, Idle)]
        == s.writers + [Writer(data, a, Registered, Idle)];
  }

  lemma HeldIsFree(s: State, op: nat)
    requires Inv(s) && op < |s.writers| && s.writers[op].control.Holding?
    ensures s.writers[op].addr !in s.registry
  {
    UnregisteredWhileHeld(s, op);
  }

  lemma SubmissionState(s: State, op: nat, data: Bytes, newBox: Addr, answer: Answer)
    requires op == |s.writers| && Taken(s, newBox) !in s.registry
    requires Step(Step(s, Acquire(data, newBox)), Register(op)) == AfterRegister(s, op, data, newBox)
    ensures var a, r := Taken(s, newBox), Steps(s, Submission(op, data, newBox, answer));
            var q := AfterRegister(s, op, data, newBox);
            match answer
            case AtOnce(n) =>
              r == q.(registry := s.registry, pool := q.pool + [a], deliveries := s.deliveries + [op],
                      writers := s.writers + [Writer(data, a, Finished(Ok(n)), Resolved(Ok(n)))])
            case Failed(status) =>
              r == q.(registry := s.registry, pool := q.pool + [a], deliveries := s.deliveries + [op],
                      writers := s.writers + [Writer(data, a, Finished(Err(status)), Resolved(Err(status)))])
            case IoPending =>
              r == q.(kernel := s.kernel[a := Pending(op, data)],
                      writers := s.writers + [Writer(data, a, Awaiting, InKernel)])
  {
    hide Steps;
    var a, q := Taken(s, newBox), AfterRegister(s, op, data, newBox);
    match answer
    case AtOnce(n) =>
      FourSteps(s, Acquire(data, newBox), Register(op), WriteFileOk(op, n), Return(op));
      ReturnState(s, q, op, data, a, WriteFileOk(op, n), SyncReturned(n), Ok(n));
    case Failed(status) =>
      FourSteps(s, Acquire(data, newBox), Register(op), WriteFileError(op, status), Return(op));
      ReturnState(s, q, op, data, a, WriteFileError(op, status), Refused(status), Err(status));
    case IoPending =>
      FourSteps(s, Acquire(data, newBox), Register(op), WriteFilePending(op), Arm(op));
      WriterTwice(s.writers, Writer(data, a, Registered, Idle), Writer(data, a, Submitted, InKernel),
                  Writer(data, a, Awaiting, InKernel));
  }

  lemma WriterTwice(writers: seq<Writer>, v: Writer, w: Writer, x: Writer)
    ensures var op := |writers|;
            (writers + [v])[op := w] == writers + [w] && (writers + [v])[op := w][op := x] == writers + [x]
  {
  }

  lemma ReturnState(s: State, q: State, op: nat, data: Bytes, a: Addr, e: Event, c: Control, result: Result)
    requires op == |s.writers| && a !in s.registry
    requires q.writers == s.writers + [Writer(data, a, Registered, Idle)] && q.registry == s.registry[a := Pending(op, data)]
    requires q.deliveries == s.deliveries
    requires match e
             case WriteFileOk(k, n) => k == op && c == SyncReturned(n) && result == Ok(n)
             case WriteFileError(k, status) => k == op && c == Refused(status) && result == Err(status)
             case _ => false
    ensures Step(Step(q, e), Return(op))
         == q.(registry := s.registry, pool := q.pool + [a], deliveries := s.deliveries + [op],
               writers := s.writers + [Writer(data, a, Finished(result), Resolved(result))])
  {
    assert q.registry - {a} == s.registry;
    WriterTwice(s.writers, Writer(data, a, Registered, Idle), Writer(data, a, c, Idle),
                Writer(data, a, Finished(result), Resolved(result)));
  }

  ghost predicate Told(before: State, now: State, p: Packet) {
    p.addr in before.registry && p.addr !in now.registry
    && var op := before.registry[p.addr].op; op in now.sent && now.sent[op] == p.result
  }

  ghost predicate Waits(before: State, now: State, p: Packet) {
    p.addr in before.registry && p.addr in now.registry && now.registry[p.addr] == before.registry[p.addr]
  }

  lemma NoSteps(s: State)
    ensures Steps(s, []) == s
  {
  }

  lemma AllWait(s: State)
    requires Inv(s)
    ensures forall j | 0 <= j < |s.packets| :: Waits(s, s, s.packets[j])
  {
    forall j | 0 <= j < |s.packets|
      ensures Waits(s, s, s.packets[j])
    {
      assert PacketInv(s, s.packets[j]);
    }
  }

  /** What handling the first packet does. */
  lemma {:induction false} PollOne(s: State)
    requires Inv(s) && s.finishing.Nothing? && |s.packets| > 0
    ensures s.packets[0].addr in s.registry && s.registry[s.packets[0].addr].op < |s.writers|
    ensures Inv(Steps(s, HANDLING))
    ensures var p := s.packets[0];
            var op := s.registry[p.addr].op;
            Steps(s, HANDLING)
            == s.(packets := s.packets[1..], registry := s.registry - {p.addr}, sent := s.sent[op := p.result],
                  writers := s.writers[op := s.writers[op].(io := Resolved(p.result))],
                  deliveries := s.deliveries + [op], pool := s.pool + [p.addr])
  {
    hide Inv, Steps;
    LookupFinds(s);
    StepsKeepInv(s, HANDLING);
    StepsCons(s, Lookup, [Send, Release]);
    StepsCons(Step(s, Lookup), Send, [Release]);
    StepsCons(Step(Step(s, Lookup), Send), Release, []);
    NoSteps(Step(Step(Step(s, Lookup), Send), Release));
    assert [Lookup] + [Send, Release] == HANDLING && [Send] + [Release] == [Send, Release] && [Release] + [] == [Release];
    var p := s.packets[0];
    var op := s.registry[p.addr].op;
    var w := s.writers[op];
    assert s.writers[op := w.(io := Progress.Taken(p.result))][op := w.(io := Resolved(p.result))]
        == s.writers[op := w.(io := Resolved(p.result))];
  }

  lemma LookupFinds(s: State)
    requires Inv(s) && |s.packets| > 0
    ensures s.packets[0].addr in s.registry && s.registry[s.packets[0].addr].op < |s.writers|
  {
    assert PacketInv(s, s.packets[0]);
  }

  /** Handling one packet disturbs neither those handled before nor those still waiting. */
  lemma PollStays(before: State, now: State, after: State, k: nat)
    requires Inv(before) && Inv(now) && k < |before.packets| && now.packets == before.packets[k..]
    requires forall j | 0 <= j < k :: Told(before, now, before.packets[j])
    requires forall j | k <= j < |before.packets| :: Waits(before, now, before.packets[j])
    requires var p := before.packets[k];
             p.addr in now.registry && after.registry == now.registry - {p.addr}
             && after.sent == now.sent[now.registry[p.addr].op := p.result]
    ensures forall j | 0 <= j < k + 1 :: Told(before, after, before.packets[j])
    ensures forall j | k + 1 <= j < |before.packets| :: Waits(before, after, before.packets[j])
    ensures Addrs(before.packets[..k + 1]) == Addrs(before.packets[..k]) + [before.packets[k].addr]
  {
    hide Inv, Links, AllWriters, OnePlace;
    assert Waits(before, now, before.packets[k]);
    PacketsDiffer(before);
    forall j | 0 <= j < k
      ensures Told(before, after, before.packets[j])
    {
      assert Told(before, now, before.packets[j]);
    }
    forall j | k + 1 <= j < |before.packets|
      ensures Waits(before, after, before.packets[j])
    {
      assert Waits(before, now, before.packets[j]);
    }
  }

  /** No two packets carry one address or speak of one write. */
  lemma PacketsDiffer(s: State)
    requires Inv(s)
    ensures forall i, j | 0 <= i < j < |s.packets| ::
              && s.packets[i].addr != s.packets[j].addr
              && s.packets[i].addr in s.registry && s.packets[j].addr in s.registry
              && s.registry[s.packets[i].addr].op != s.registry[s.packets[j].addr].op
  {
    forall i, j | 0 <= i < j < |s.packets|
      ensures s.packets[i].addr in s.registry && s.packets[j].addr in s.registry
      ensures s.registry[s.packets[i].addr].op != s.registry[s.packets[j].addr].op
    {
      assert PacketInv(s, s.packets[i]) && PacketInv(s, s.packets[j]);
      assert RegistryInv(s, s.packets[i].addr) && RegistryInv(s, s.packets[j].addr);
    }
  }
}
