/** Who owns an OVERLAPPED, and whose result is whose: the completion-port writes of
    `IoCpStorage` with their reuse pool, registry, kernel, poller thread and cancel guards, all
    of them interleaved. */
module Iocp {
  import opened ByteStore

  type Addr = nat

  datatype Result = Ok(n: nat) | Err(status: int)

  /** A registry entry, or a request the kernel holds: write number `op` and its buffer. */
  datatype Pending = Pending(op: nat, data: Bytes)

  datatype Packet = Packet(addr: Addr, result: Result)

  /** Where the future of a `write_at` stands. */
  datatype Control =
    | Holding                    // owns its OVERLAPPED, not registered yet
    | Registered
    | SyncReturned(n: nat)       // WriteFile succeeded at once; the registry entry is still there
    | Refused(status: int)       // WriteFile failed; the registry entry is still there
    | Submitted                  // ERROR_IO_PENDING
    | Awaiting                   // the cancel guard is armed
    | Finished(result: Result)
    | Dropped

  /** What has become of the write itself. This is a record of history: no step looks at it. */
  datatype Progress = Idle | InKernel | Posted(result: Result) | Taken(result: Result) | Resolved(result: Result)

  datatype Writer = Writer(data: Bytes, addr: Addr, control: Control, io: Progress)

  /** The entry `complete_pending_write` has taken out of the registry. */
  datatype Finishing = Nothing | InHand(addr: Addr, op: nat, result: Result, sent: bool)

  /** `cancels` lists the writes hit by a guard's CancelIoEx, with the write whose guard it was. */
  datatype State = State(
    pool: seq<Addr>, registry: map<Addr, Pending>, kernel: map<Addr, Pending>,
    packets: seq<Packet>, finishing: Finishing, writers: seq<Writer>,
    sent: map<nat, Result>, deliveries: seq<nat>, live: set<Addr>,
    cancels: seq<(nat, nat)>, unknown: bool)

  datatype Event =
    | Acquire(data: Bytes, newBox: Addr)
    | Register(op: nat)
    | WriteFileOk(op: nat, n: nat)
    | WriteFileError(op: nat, status: int)
    | WriteFilePending(op: nat)
    | Return(op: nat)            // the fast path and the error path take their entry back
    | Complete(addr: Addr, result: Result)
    | Lookup                     // the poller handles the next packet
    | Send
    | Release
    | Arm(op: nat)
    | Receive(op: nat)
    | Drop(op: nat)

  function Start(): State {
    State([], map[], map[], [], Nothing, [], map[], [], {}, [], false)
  }

  function SetControl(s: State, op: nat, c: Control): State
    requires op < |s.writers|
  {
    s.(writers := s.writers[op := s.writers[op].(control := c)])
  }

  function SetIo(s: State, op: nat, io: Progress): State
    requires op < |s.writers|
  {
    s.(writers := s.writers[op := s.writers[op].(io := io)])
  }

  /** `OverlappedPool::acquire`: the oldest pooled one, or a new box, whose address is not in use. */
  function StepAcquire(s: State, data: Bytes, newBox: Addr): State {
    if |s.pool| > 0 then
      s.(pool := s.pool[1..], writers := s.writers + [Writer(data, s.pool[0], Holding, Idle)])
    else if newBox in s.live then s
    else
      s.(live := s.live + {newBox}, writers := s.writers + [Writer(data, newBox, Holding, Idle)])
  }

  /** The writer takes its own entry out of the registry, pools the OVERLAPPED and returns. */
  function StepReturn(s: State, op: nat, r: Result): State
    requires op < |s.writers|
  {
    var a := s.writers[op].addr;
    var s1 := if a in s.registry then s.(registry := s.registry - {a}, pool := s.pool + [a]) else s;
    s1.(writers := s.writers[op := s.writers[op].(control := Finished(r), io := Resolved(r))], deliveries := s.deliveries + [op])
  }

  function StepWriter(s: State, op: nat, e: Event): State
    requires op < |s.writers|
  {
    var w := s.writers[op];
    match (e, w.control)
    case (Register(_), Holding) =>
      SetControl(s, op, Registered).(registry := s.registry[w.addr := Pending(op, w.data)])
    case (WriteFileOk(_, n), Registered) => SetControl(s, op, SyncReturned(n))
    case (WriteFileError(_, status), Registered) => SetControl(s, op, Refused(status))
    case (WriteFilePending(_), Registered) =>
      s.(writers := s.writers[op := w.(control := Submitted, io := InKernel)], kernel := s.kernel[w.addr := Pending(op, w.data)])
    case (Return(_), SyncReturned(n)) => StepReturn(s, op, Ok(n))
    case (Return(_), Refused(status)) => StepReturn(s, op, Err(status))
    case (Arm(_), Submitted) => SetControl(s, op, Awaiting)
    case (Receive(_), Awaiting) => if op in s.sent then SetControl(s, op, Finished(s.sent[op])) else s
    case (Drop(_), Awaiting) =>
      SetControl(s, op, Dropped)
        .(cancels := if w.addr in s.registry then s.cancels + [(op, s.registry[w.addr].op)] else s.cancels)
    case _ => s
  }

  /** The kernel is done with the request at `addr` and posts a packet; a cancelled request is
      one that completes with an error status. */
  function StepComplete(s: State, addr: Addr, result: Result): State {
    if addr in s.kernel && s.kernel[addr].op < |s.writers| then
      SetIo(s, s.kernel[addr].op, Posted(result)).(kernel := s.kernel - {addr}, packets := s.packets + [Packet(addr, result)])
    else s
  }

  function StepLookup(s: State): State {
    if s.finishing.InHand? || |s.packets| == 0 then s
    else
      var p, rest := s.packets[0], s.(packets := s.packets[1..]);
      if p.addr in s.registry && s.registry[p.addr].op < |s.writers| then
        var op := s.registry[p.addr].op;
        SetIo(rest, op, Taken(p.result))
          .(registry := s.registry - {p.addr}, finishing := InHand(p.addr, op, p.result, false))
      else rest.(unknown := true)
  }

  function StepSend(s: State): State {
    if s.finishing.InHand? && !s.finishing.sent && s.finishing.op < |s.writers| then
      var f := s.finishing;
      SetIo(s, f.op, Resolved(f.result))
        .(sent := s.sent[f.op := f.result], deliveries := s.deliveries + [f.op], finishing := f.(sent := true))
    else s
  }

  function Step(s: State, e: Event): State {
    match e
    case Acquire(data, newBox) => StepAcquire(s, data, newBox)
    case Complete(addr, result) => StepComplete(s, addr, result)
    case Lookup => StepLookup(s)
    case Send => StepSend(s)
    case Release =>
      if s.finishing.InHand? && s.finishing.sent
      then s.(pool := s.pool + [s.finishing.addr], finishing := Nothing) else s
    case _ => if e.op < |s.writers| then StepWriter(s, e.op, e) else s
  }

  function Run(events: seq<Event>): State
    decreases |events|
  {
    if |events| == 0 then Start() else Step(Run(events[..|events| - 1]), events[|events| - 1])
  }

  // ----- Every OVERLAPPED is in exactly one place -----

  function HeldCount(writers: seq<Writer>, a: Addr): nat {
    if |writers| == 0 then 0
    else
      var w := writers[|writers| - 1];
      HeldCount(writers[..|writers| - 1], a) + if w.control.Holding? && w.addr == a then 1 else 0
  }

  /** In how many of the four places the address is: the pool, a submitting writer, the registry,
      the poller's hand. */
  function Places(s: State, a: Addr): nat {
    multiset(s.pool)[a] + HeldCount(s.writers, a)
    + (if a in s.registry then 1 else 0)
    + (if s.finishing.InHand? && s.finishing.addr == a then 1 else 0)
  }

  ghost predicate OnePlace(s: State) {
    forall a: Addr :: Places(s, a) == if a in s.live then 1 else 0
  }

  // ----- The invariant -----

  predicate InRegistry(w: Writer) {
    w.control.Registered? || w.control.SyncReturned? || w.control.Refused? || w.io.InKernel? || w.io.Posted?
  }

  predicate WriterInv(s: State, op: nat)
    requires op < |s.writers|
  {
    var w := s.writers[op];
    && (w.control.Holding? || w.control.Registered? || w.control.SyncReturned? || w.control.Refused? <==> w.io.Idle?)
    && (w.control.Finished? ==> w.io == Resolved(w.control.result))
    && (InRegistry(w) ==> w.addr in s.registry && s.registry[w.addr] == Pending(op, w.data))
    && (w.io.InKernel? ==> w.addr in s.kernel && s.kernel[w.addr] == Pending(op, w.data))
    && (w.io.Posted? ==> Packet(w.addr, w.io.result) in s.packets)
    && (w.io.Taken? ==> s.finishing == InHand(w.addr, op, w.io.result, false))
    && (w.io.Resolved? <==> op in s.deliveries)
    && (w.io.Resolved? && !w.control.Finished? ==> op in s.sent)
  }

  predicate RegistryInv(s: State, a: Addr)
    requires a in s.registry
  {
    var p := s.registry[a];
    p.op < |s.writers| && s.writers[p.op].addr == a && s.writers[p.op].data == p.data && InRegistry(s.writers[p.op])
  }

  predicate KernelInv(s: State, a: Addr)
    requires a in s.kernel
  {
    var p := s.kernel[a];
    p.op < |s.writers| && s.writers[p.op].addr == a && s.writers[p.op].data == p.data && s.writers[p.op].io.InKernel?
  }

  predicate PacketInv(s: State, p: Packet) {
    && p.addr in s.registry && s.registry[p.addr].op < |s.writers|
    && s.writers[s.registry[p.addr].op].io == Posted(p.result)
  }

  predicate FinishingInv(s: State) {
    s.finishing.InHand? ==>
      var f := s.finishing;
      && f.op < |s.writers| && s.writers[f.op].addr == f.addr
      && s.writers[f.op].io == if f.sent then Resolved(f.result) else Taken(f.result)
  }

  predicate SentInv(s: State, op: nat)
    requires op in s.sent
  {
    op < |s.writers| && s.writers[op].io == Resolved(s.sent[op])
  }

  ghost predicate AllWriters(s: State) {
    forall op | 0 <= op < |s.writers| :: WriterInv(s, op)
  }

  /** The structures point back at the writers, and no two entries at the same one. */
  ghost predicate Structures(s: State) {
    && (forall a | a in s.registry :: RegistryInv(s, a))
    && (forall a | a in s.kernel :: KernelInv(s, a))
    && (forall p | p in s.packets :: PacketInv(s, p))
    && (forall j, k | 0 <= j < k < |s.packets| :: s.packets[j].addr != s.packets[k].addr)
    && FinishingInv(s)
    && (forall op | op in s.sent :: SentInv(s, op))
    && (forall op | op in s.deliveries :: op < |s.writers|)
    && (forall j, k | 0 <= j < k < |s.deliveries| :: s.deliveries[j] != s.deliveries[k])
    && !s.unknown
  }

  ghost predicate Links(s: State) {
    AllWriters(s) && Structures(s)
  }

  ghost predicate Inv(s: State) {
    Links(s) && OnePlace(s)
  }

  // ----- Counting places -----

  lemma {:induction false} HeldSet(writers: seq<Writer>, op: nat, w: Writer, a: Addr)
    requires op < |writers|
    ensures HeldCount(writers[op := w], a) + (if writers[op].control.Holding? && writers[op].addr == a then 1 else 0)
         == HeldCount(writers, a) + (if w.control.Holding? && w.addr == a then 1 else 0)
    decreases |writers|
  {
    var last := |writers| - 1;
    if op == last {
      assert writers[op := w][..last] == writers[..last];
    } else {
      assert writers[op := w][..last] == writers[..last][op := w];
      HeldSet(writers[..last], op, w, a);
    }
  }

  lemma HeldAppend(writers: seq<Writer>, w: Writer, a: Addr)
    ensures HeldCount(writers + [w], a) == HeldCount(writers, a) + if w.control.Holding? && w.addr == a then 1 else 0
  {
    assert (writers + [w])[..|writers|] == writers;
  }

  lemma {:induction false} HeldAtLeastOne(writers: seq<Writer>, op: nat)
    requires op < |writers| && writers[op].control.Holding?
    ensures HeldCount(writers, writers[op].addr) >= 1
    decreases |writers|
  {
    if op < |writers| - 1 {
      HeldAtLeastOne(writers[..|writers| - 1], op);
    }
  }

  lemma PoolHead(pool: seq<Addr>, a: Addr)
    requires |pool| > 0
    ensures multiset(pool)[a] == multiset(pool[1..])[a] + if pool[0] == a then 1 else 0
  {
    assert pool == [pool[0]] + pool[1..];
  }

  lemma PoolPush(pool: seq<Addr>, b: Addr, a: Addr)
    ensures multiset(pool + [b])[a] == multiset(pool)[a] + if b == a then 1 else 0
  {
  }

  /** A step that changes writer `op` only keeps every address in one place if what the writer
      gives up is what the pool, the registry or the poller's hand receives. */
  lemma KeepsPlaces(s: State, s': State, op: nat)
    requires OnePlace(s) && op < |s.writers| && |s'.writers| == |s.writers| && s'.live == s.live
    requires s'.writers == s.writers[op := s'.writers[op]]
    requires forall a: Addr :: Elsewhere(s', a) + Held(s'.writers[op], a) == Elsewhere(s, a) + Held(s.writers[op], a)
    ensures OnePlace(s')
  {
    forall a: Addr
      ensures Places(s', a) == if a in s'.live then 1 else 0
    {
      assert Places(s, a) == if a in s.live then 1 else 0;
      HeldSet(s.writers, op, s'.writers[op], a);
      assert Elsewhere(s', a) + Held(s'.writers[op], a) == Elsewhere(s, a) + Held(s.writers[op], a);
    }
  }

  function Held(w: Writer, a: Addr): nat {
    if w.control.Holding? && w.addr == a then 1 else 0
  }

  function Elsewhere(s: State, a: Addr): nat {
    multiset(s.pool)[a]
    + (if a in s.registry then 1 else 0)
    + (if s.finishing.InHand? && s.finishing.addr == a then 1 else 0)
  }

  lemma UnregisteredWhileHeld(s: State, op: nat)
    requires OnePlace(s) && op < |s.writers| && s.writers[op].control.Holding?
    ensures s.writers[op].addr !in s.registry
  {
    HeldAtLeastOne(s.writers, op);
    assert Places(s, s.writers[op].addr) <= 1;
  }

  // ----- Steps of a writer -----

  lemma AcquirePlaces(s: State, data: Bytes, newBox: Addr)
    requires OnePlace(s)
    ensures OnePlace(StepAcquire(s, data, newBox))
  {
    hide HeldCount;
    var s' := StepAcquire(s, data, newBox);
    if |s.pool| > 0 {
      var w := Writer(data, s.pool[0], Holding, Idle);
      forall a: Addr
        ensures Places(s', a) == if a in s'.live then 1 else 0
      {
        assert Places(s, a) == if a in s.live then 1 else 0;
        HeldAppend(s.writers, w, a);
        PoolHead(s.pool, a);
      }
    } else if newBox !in s.live {
      var w := Writer(data, newBox, Holding, Idle);
      forall a: Addr
        ensures Places(s', a) == if a in s'.live then 1 else 0
      {
        assert Places(s, a) == if a in s.live then 1 else 0;
        HeldAppend(s.writers, w, a);
      }
    }
  }

  lemma AcquireWriters(s: State, data: Bytes, newBox: Addr)
    requires Links(s)
    ensures AllWriters(StepAcquire(s, data, newBox))
  {
    hide RegistryInv, KernelInv, PacketInv, SentInv, FinishingInv;
    var s' := StepAcquire(s, data, newBox);
    if s' != s {
      assert s'.writers[|s.writers|].io.Idle? && |s.writers| !in s.deliveries;
      forall k | 0 <= k < |s'.writers|
        ensures WriterInv(s', k)
      {
        assert k < |s.writers| ==> WriterInv(s, k);
      }
    }
  }

  lemma AcquireStructures(s: State, data: Bytes, newBox: Addr)
    requires Links(s)
    ensures Structures(StepAcquire(s, data, newBox))
  {
    hide AllWriters, WriterInv;
    var s' := StepAcquire(s, data, newBox);
    if s' != s {
      AppendedWriter(s, s', s'.writers[|s.writers|]);
    }
  }

  lemma AppendedWriter(s: State, s': State, w: Writer)
    requires Structures(s) && s'.writers == s.writers + [w]
    requires s'.registry == s.registry && s'.kernel == s.kernel && s'.packets == s.packets && s'.finishing == s.finishing
    requires s'.sent == s.sent && s'.deliveries == s.deliveries && s'.unknown == s.unknown
    ensures Structures(s')
  {
    forall a | a in s.registry
      ensures RegistryInv(s', a)
    {
      assert RegistryInv(s, a);
    }
    forall a | a in s.kernel
      ensures KernelInv(s', a)
    {
      assert KernelInv(s, a);
    }
    forall p | p in s.packets
      ensures PacketInv(s', p)
    {
      assert PacketInv(s, p);
    }
    forall op | op in s.sent
      ensures SentInv(s', op)
    {
      assert SentInv(s, op);
    }
  }

  lemma RegisterWriters(s: State, op: nat)
    requires Inv(s) && op < |s.writers| && s.writers[op].control.Holding?
    ensures AllWriters(StepWriter(s, op, Register(op)))
  {
    hide KernelInv, PacketInv, SentInv, FinishingInv;
    var s' := StepWriter(s, op, Register(op));
    UnregisteredWhileHeld(s, op);
    assert WriterInv(s, op);
    forall k | 0 <= k < |s'.writers|
      ensures WriterInv(s', k)
    {
      assert WriterInv(s, k);
    }
  }

  lemma RegisterStructures(s: State, op: nat)
    requires Inv(s) && op < |s.writers| && s.writers[op].control.Holding?
    ensures Structures(StepWriter(s, op, Register(op)))
  {
    var s' := StepWriter(s, op, Register(op));
    UnregisteredWhileHeld(s, op);
    assert WriterInv(s, op);
    hide AllWriters, WriterInv;
    forall a | a in s'.registry
      ensures RegistryInv(s', a)
    {
      if a != s.writers[op].addr {
        assert RegistryInv(s, a);
      }
    }
    forall a | a in s'.kernel
      ensures KernelInv(s', a)
    {
      assert KernelInv(s, a);
    }
    forall p | p in s'.packets
      ensures PacketInv(s', p)
    {
      assert PacketInv(s, p);
    }
    assert forall k | k in s.sent :: SentInv(s, k) && SentInv(s', k);
  }

  lemma RegisterKeepsInv(s: State, op: nat)
    requires Inv(s) && op < |s.writers| && s.writers[op].control.Holding?
    ensures Inv(StepWriter(s, op, Register(op)))
  {
    UnregisteredWhileHeld(s, op);
    RegisterWriters(s, op);
    RegisterStructures(s, op);
    hide AllWriters, Structures;
    KeepsPlaces(s, StepWriter(s, op, Register(op)), op);
  }

  /** A future moves on and nothing else happens. */
  predicate MovesOn(s: State, op: nat, c: Control)
    requires op < |s.writers|
  {
    var was := s.writers[op].control;
    || (was.Registered? && (c.SyncReturned? || c.Refused?))
    || (was.Submitted? && c.Awaiting?)
    || (was.Awaiting? && c.Dropped?)
    || (was.Awaiting? && op in s.sent && c == Finished(s.sent[op]))
  }

  lemma ControlWriters(s: State, op: nat, c: Control)
    requires Inv(s) && op < |s.writers| && MovesOn(s, op, c)
    ensures AllWriters(SetControl(s, op, c))
  {
    hide KernelInv, PacketInv, SentInv, FinishingInv;
    var s' := SetControl(s, op, c);
    assert WriterInv(s, op);
    if op in s.sent { SentIsResolved(s, op); }
    forall k | 0 <= k < |s'.writers|
      ensures WriterInv(s', k)
    {
      assert WriterInv(s, k);
    }
  }

  lemma ControlStructures(s: State, op: nat, c: Control)
    requires Inv(s) && op < |s.writers| && MovesOn(s, op, c)
    ensures Structures(SetControl(s, op, c))
  {
    var s' := SetControl(s, op, c);
    assert WriterInv(s, op);
    hide AllWriters, WriterInv;
    forall a | a in s'.registry
      ensures RegistryInv(s', a)
    {
      assert RegistryInv(s, a);
    }
    forall a | a in s'.kernel
      ensures KernelInv(s', a)
    {
      assert KernelInv(s, a);
    }
    forall p | p in s'.packets
      ensures PacketInv(s', p)
    {
      assert PacketInv(s, p);
    }
    assert forall k | k in s.sent :: SentInv(s, k) && SentInv(s', k);
  }

  lemma SentIsResolved(s: State, op: nat)
    requires Structures(s) && op in s.sent
    ensures op < |s.writers| && s.writers[op].io == Resolved(s.sent[op])
  {
    assert SentInv(s, op);
  }

  lemma ControlKeepsInv(s: State, op: nat, c: Control)
    requires Inv(s) && op < |s.writers| && MovesOn(s, op, c)
    ensures Inv(SetControl(s, op, c))
  {
    ControlWriters(s, op, c);
    ControlStructures(s, op, c);
    hide AllWriters, Structures;
    KeepsPlaces(s, SetControl(s, op, c), op);
  }

  lemma SubmitWriters(s: State, op: nat)
    requires Inv(s) && op < |s.writers| && s.writers[op].control.Registered?
    ensures AllWriters(StepWriter(s, op, WriteFilePending(op)))
  {
    hide KernelInv, PacketInv, SentInv, FinishingInv;
    var s' := StepWriter(s, op, WriteFilePending(op));
    assert WriterInv(s, op);
    forall k | 0 <= k < |s'.writers|
      ensures WriterInv(s', k)
    {
      assert WriterInv(s, k);
    }
  }

  lemma SubmitStructures(s: State, op: nat)
    requires Inv(s) && op < |s.writers| && s.writers[op].control.Registered?
    ensures Structures(StepWriter(s, op, WriteFilePending(op)))
  {
    var w := s.writers[op];
    assert WriterInv(s, op);
    SubmittedStructures(s, op, s.writers[op := w.(control := Submitted, io := InKernel)]);
  }

  lemma SubmittedStructures(s: State, op: nat, writers: seq<Writer>)
    requires Structures(s) && op < |s.writers| && s.writers[op].io.Idle?
    requires writers == s.writers[op := s.writers[op].(control := Submitted, io := InKernel)]
    requires var a := s.writers[op].addr; a in s.registry && s.registry[a] == Pending(op, s.writers[op].data)
    ensures Structures(s.(writers := writers, kernel := s.kernel[s.writers[op].addr := Pending(op, s.writers[op].data)]))
  {
    var s' := s.(writers := writers, kernel := s.kernel[s.writers[op].addr := Pending(op, s.writers[op].data)]);
    forall a | a in s.registry
      ensures RegistryInv(s', a)
    {
      assert RegistryInv(s, a);
    }
    forall a | a in s'.kernel
      ensures KernelInv(s', a)
    {
      if a != s.writers[op].addr {
        assert KernelInv(s, a);
      }
    }
    forall p | p in s.packets
      ensures PacketInv(s', p)
    {
      assert PacketInv(s, p);
    }
    forall k | k in s.sent
      ensures SentInv(s', k)
    {
      assert SentInv(s, k);
    }
  }

  lemma SubmitKeepsInv(s: State, op: nat)
    requires Inv(s) && op < |s.writers| && s.writers[op].control.Registered?
    ensures Inv(StepWriter(s, op, WriteFilePending(op)))
  {
    SubmitWriters(s, op);
    SubmitStructures(s, op);
    hide AllWriters, Structures;
    var s' := StepWriter(s, op, WriteFilePending(op));
    assert s'.writers == s.writers[op := s'.writers[op]];
    KeepsPlaces(s, s', op);
  }

  lemma ReturnPlaces(s: State, op: nat, r: Result)
    requires OnePlace(s) && op < |s.writers| && !s.writers[op].control.Holding?
    ensures OnePlace(StepReturn(s, op, r))
  {
    var b, s' := s.writers[op].addr, StepReturn(s, op, r);
    assert s'.writers == s.writers[op := s'.writers[op]];
    forall a: Addr
      ensures Elsewhere(s', a) == Elsewhere(s, a)
    {
      PoolPush(s.pool, b, a);
    }
    KeepsPlaces(s, s', op);
  }

  lemma ReturnWriters(s: State, op: nat, r: Result)
    requires Links(s) && op < |s.writers|
    requires s.writers[op].control.SyncReturned? || s.writers[op].control.Refused?
    ensures AllWriters(StepReturn(s, op, r))
  {
    hide KernelInv, PacketInv, SentInv, FinishingInv;
    var s' := StepReturn(s, op, r);
    assert WriterInv(s, op);
    forall k | 0 <= k < |s'.writers|
      ensures WriterInv(s', k)
    {
      assert WriterInv(s, k);
    }
  }

  lemma ReturnStructures(s: State, op: nat, r: Result)
    requires Links(s) && op < |s.writers|
    requires s.writers[op].control.SyncReturned? || s.writers[op].control.Refused?
    ensures Structures(StepReturn(s, op, r))
  {
    var s' := StepReturn(s, op, r);
    assert WriterInv(s, op);
    hide AllWriters, WriterInv;
    forall a | a in s'.registry
      ensures RegistryInv(s', a)
    {
      assert RegistryInv(s, a);
    }
    forall a | a in s'.kernel
      ensures KernelInv(s', a)
    {
      assert KernelInv(s, a);
    }
    forall p | p in s'.packets
      ensures PacketInv(s', p)
    {
      assert PacketInv(s, p);
    }
    assert forall k | k in s.sent :: SentInv(s, k) && SentInv(s', k);
  }

  lemma ReturnKeepsInv(s: State, op: nat, r: Result)
    requires Inv(s) && op < |s.writers|
    requires s.writers[op].control.SyncReturned? || s.writers[op].control.Refused?
    ensures Inv(StepReturn(s, op, r))
  {
    ReturnPlaces(s, op, r);
    ReturnWriters(s, op, r);
    ReturnStructures(s, op, r);
  }

  lemma WriterStepKeepsInv(s: State, op: nat, e: Event)
    requires Inv(s) && op < |s.writers|
    ensures Inv(StepWriter(s, op, e))
  {
    hide Inv;
    var w := s.writers[op];
    match (e, w.control)
    case (Register(_), Holding) => RegisterKeepsInv(s, op);
    case (WriteFileOk(_, n), Registered) => ControlKeepsInv(s, op, SyncReturned(n));
    case (WriteFileError(_, status), Registered) => ControlKeepsInv(s, op, Refused(status));
    case (WriteFilePending(_), Registered) => SubmitKeepsInv(s, op);
    case (Return(_), SyncReturned(n)) => ReturnKeepsInv(s, op, Ok(n));
    case (Return(_), Refused(status)) => ReturnKeepsInv(s, op, Err(status));
    case (Arm(_), Submitted) => ControlKeepsInv(s, op, Awaiting);
    case (Receive(_), Awaiting) => if op in s.sent { ControlKeepsInv(s, op, Finished(s.sent[op])); }
    case (Drop(_), Awaiting) =>
      ControlKeepsInv(s, op, Dropped);
      CancelsAreOnlyNoted(SetControl(s, op, Dropped), StepWriter(s, op, e).cancels);
    case _ =>
  }

  lemma CancelsAreOnlyNoted(s: State, cancels: seq<(nat, nat)>)
    requires Inv(s)
    ensures Inv(s.(cancels := cancels))
  {
    var s' := s.(cancels := cancels);
    forall op | 0 <= op < |s.writers|
      ensures WriterInv(s', op)
    {
      assert WriterInv(s, op);
    }
    forall a | a in s.registry
      ensures RegistryInv(s', a)
    {
      assert RegistryInv(s, a);
    }
    forall a | a in s.kernel
      ensures KernelInv(s', a)
    {
      assert KernelInv(s, a);
    }
    forall p | p in s.packets
      ensures PacketInv(s', p)
    {
      assert PacketInv(s, p);
    }
    forall op | op in s.sent
      ensures SentInv(s', op)
    {
      assert SentInv(s, op);
    }
    forall a: Addr
      ensures Places(s', a) == if a in s'.live then 1 else 0
    {
      assert Places(s, a) == if a in s.live then 1 else 0;
    }
  }

  // ----- Steps of the kernel and the poller -----

  lemma CompleteKeepsInv(s: State, addr: Addr, result: Result)
    requires Inv(s)
    ensures Inv(StepComplete(s, addr, result))
  {
    if addr in s.kernel {
      assert KernelInv(s, addr);
      CompleteWriters(s, addr, result);
      CompleteStructures(s, addr, result);
      hide AllWriters, Structures;
      var s' := StepComplete(s, addr, result);
      assert s'.writers == s.writers[s.kernel[addr].op := s'.writers[s.kernel[addr].op]];
      KeepsPlaces(s, s', s.kernel[addr].op);
    }
  }

  /** A request in the kernel has no packet yet. */
  lemma NoPacketYet(s: State, addr: Addr)
    requires Links(s) && addr in s.kernel
    ensures forall p | p in s.packets :: p.addr != addr
  {
    assert KernelInv(s, addr) && WriterInv(s, s.kernel[addr].op);
    forall p | p in s.packets
      ensures p.addr != addr
    {
      assert PacketInv(s, p);
    }
  }

  lemma CompleteWriters(s: State, addr: Addr, result: Result)
    requires Inv(s) && addr in s.kernel && KernelInv(s, addr)
    ensures AllWriters(StepComplete(s, addr, result))
  {
    hide PacketInv, SentInv, FinishingInv;
    var op, s' := s.kernel[addr].op, StepComplete(s, addr, result);
    assert WriterInv(s, op);
    assert s'.packets[|s.packets|] == Packet(addr, result);
    forall k | 0 <= k < |s'.writers|
      ensures WriterInv(s', k)
    {
      assert WriterInv(s, k);
    }
  }

  lemma CompleteStructures(s: State, addr: Addr, result: Result)
    requires Inv(s) && addr in s.kernel && KernelInv(s, addr)
    ensures Structures(StepComplete(s, addr, result))
  {
    var op, s' := s.kernel[addr].op, StepComplete(s, addr, result);
    assert WriterInv(s, op);
    NoPacketYet(s, addr);
    hide AllWriters, WriterInv;
    forall a | a in s'.registry
      ensures RegistryInv(s', a)
    {
      assert RegistryInv(s, a);
    }
    forall a | a in s'.kernel
      ensures KernelInv(s', a)
    {
      assert KernelInv(s, a);
    }
    forall p | p in s'.packets
      ensures PacketInv(s', p)
    {
      assert p in s.packets ==> PacketInv(s, p);
    }
    forall k | k in s.sent
      ensures SentInv(s', k)
    {
      assert SentInv(s, k);
    }
  }

  /** The poller never finds a packet without a registry entry. */
  lemma LookupHits(s: State)
    requires Links(s) && |s.packets| > 0
    ensures var p := s.packets[0];
            && p.addr in s.registry && s.registry[p.addr].op < |s.writers|
            && s.writers[s.registry[p.addr].op].io == Posted(p.result)
            && s.writers[s.registry[p.addr].op].addr == p.addr
  {
    var p := s.packets[0];
    assert p in s.packets && PacketInv(s, p);
    assert RegistryInv(s, p.addr);
  }

  lemma LookupWriters(s: State)
    requires Inv(s) && s.finishing.Nothing? && |s.packets| > 0
    ensures AllWriters(StepLookup(s))
  {
    LookupHits(s);
    hide PacketInv, SentInv, KernelInv;
    var p, s' := s.packets[0], StepLookup(s);
    var op := s.registry[p.addr].op;
    assert WriterInv(s, op);
    forall k | 0 <= k < |s'.writers|
      ensures WriterInv(s', k)
    {
      assert WriterInv(s, k);
      var w := s.writers[k];
      if k != op && w.io.Posted? {
        var q := Packet(w.addr, w.io.result);
        assert q in s.packets && q.addr != p.addr;
        assert s.packets == [p] + s.packets[1..];
      }
    }
  }

  lemma LookupStructures(s: State)
    requires Inv(s) && s.finishing.Nothing? && |s.packets| > 0
    ensures Structures(StepLookup(s))
  {
    LookupHits(s);
    var p, s' := s.packets[0], StepLookup(s);
    var op := s.registry[p.addr].op;
    assert WriterInv(s, op);
    hide AllWriters, WriterInv;
    forall a | a in s'.registry
      ensures RegistryInv(s', a)
    {
      assert RegistryInv(s, a);
    }
    forall a | a in s'.kernel
      ensures KernelInv(s', a)
    {
      assert KernelInv(s, a);
    }
    forall q | q in s'.packets
      ensures PacketInv(s', q)
    {
      assert PacketInv(s, q);
      var j :| 0 <= j < |s'.packets| && s'.packets[j] == q;
      assert s.packets[j + 1] == q && s.packets[0].addr != s.packets[j + 1].addr;
      assert RegistryInv(s, q.addr);
    }
    forall k | k in s.sent
      ensures SentInv(s', k)
    {
      assert SentInv(s, k);
    }
  }

  lemma LookupKeepsInv(s: State)
    requires Inv(s)
    ensures Inv(StepLookup(s))
  {
    if s.finishing.Nothing? && |s.packets| > 0 {
      LookupHits(s);
      LookupWriters(s);
      LookupStructures(s);
      hide AllWriters, Structures;
      var s' := StepLookup(s);
      var op := s.registry[s.packets[0].addr].op;
      assert s'.writers == s.writers[op := s'.writers[op]];
      KeepsPlaces(s, s', op);
    }
  }

  lemma SendWriters(s: State)
    requires Inv(s) && s.finishing.InHand? && !s.finishing.sent
    ensures s.finishing.op < |s.writers| && AllWriters(StepSend(s))
  {
    hide PacketInv, SentInv, KernelInv, RegistryInv;
    var op, s' := s.finishing.op, StepSend(s);
    assert WriterInv(s, op);
    assert s'.deliveries[|s.deliveries|] == op;
    forall k | 0 <= k < |s'.writers|
      ensures WriterInv(s', k)
    {
      assert WriterInv(s, k);
    }
  }

  lemma SendStructures(s: State)
    requires Inv(s) && s.finishing.InHand? && !s.finishing.sent
    ensures Structures(StepSend(s))
  {
    var op, s' := s.finishing.op, StepSend(s);
    assert WriterInv(s, op);
    hide AllWriters, WriterInv;
    forall a | a in s'.registry
      ensures RegistryInv(s', a)
    {
      assert RegistryInv(s, a);
    }
    forall a | a in s'.kernel
      ensures KernelInv(s', a)
    {
      assert KernelInv(s, a);
    }
    forall p | p in s'.packets
      ensures PacketInv(s', p)
    {
      assert PacketInv(s, p);
    }
    forall k | k in s'.sent
      ensures SentInv(s', k)
    {
      assert k != op ==> SentInv(s, k);
    }
  }

  lemma SendKeepsInv(s: State)
    requires Inv(s)
    ensures Inv(StepSend(s))
  {
    if s.finishing.InHand? && !s.finishing.sent {
      SendWriters(s);
      SendStructures(s);
      hide AllWriters, Structures;
      var s' := StepSend(s);
      assert s'.writers == s.writers[s.finishing.op := s'.writers[s.finishing.op]];
      KeepsPlaces(s, s', s.finishing.op);
    }
  }

  lemma ReleaseKeepsInv(s: State)
    requires Inv(s) && s.finishing.InHand? && s.finishing.sent
    ensures Inv(Step(s, Release))
  {
    var s' := Step(s, Release);
    assert WriterInv(s, s.finishing.op);
    forall a: Addr
      ensures Places(s', a) == if a in s'.live then 1 else 0
    {
      assert Places(s, a) == if a in s.live then 1 else 0;
      PoolPush(s.pool, s.finishing.addr, a);
    }
    hide OnePlace, Places;
    forall k | 0 <= k < |s'.writers|
      ensures WriterInv(s', k)
    {
      assert WriterInv(s, k);
    }
    forall a | a in s'.registry
      ensures RegistryInv(s', a)
    {
      assert RegistryInv(s, a);
    }
    forall a | a in s'.kernel
      ensures KernelInv(s', a)
    {
      assert KernelInv(s, a);
    }
    forall p | p in s'.packets
      ensures PacketInv(s', p)
    {
      assert PacketInv(s, p);
    }
    forall k | k in s'.sent
      ensures SentInv(s', k)
    {
      assert SentInv(s, k);
    }
  }

  /** Every step, by a writer, the kernel or the poller, keeps the invariant. */
  lemma StepKeepsInv(s: State, e: Event)
    requires Inv(s)
    ensures Inv(Step(s, e))
  {
    hide Inv, StepWriter, StepAcquire, StepComplete, StepLookup, StepSend;
    match e
    case Acquire(data, newBox) => AcquireKeepsInv(s, data, newBox);
    case Complete(addr, result) => CompleteKeepsInv(s, addr, result);
    case Lookup => LookupKeepsInv(s);
    case Send => SendKeepsInv(s);
    case Release => if s.finishing.InHand? && s.finishing.sent { ReleaseKeepsInv(s); }
    case _ => if e.op < |s.writers| { WriterStepKeepsInv(s, e.op, e); }
  }

  lemma AcquireKeepsInv(s: State, data: Bytes, newBox: Addr)
    requires Inv(s)
    ensures Inv(StepAcquire(s, data, newBox))
  {
    AcquirePlaces(s, data, newBox);
    AcquireWriters(s, data, newBox);
    AcquireStructures(s, data, newBox);
  }

  lemma {:induction false} Reachable(events: seq<Event>)
    ensures Inv(Run(events))
    decreases |events|
  {
    if |events| == 0 {
    } else {
      Reachable(events[..|events| - 1]);
      StepKeepsInv(Run(events[..|events| - 1]), events[|events| - 1]);
    }
  }

  // ----- The theorems -----

  /** In every reachable state each OVERLAPPED ever made is in exactly one place, and no other
      address is anywhere. */
  lemma {:induction false} EveryAddressInOnePlace(events: seq<Event>, a: Addr)
    ensures Places(Run(events), a) == if a in Run(events).live then 1 else 0
  {
    Reachable(events);
  }

  /** What the kernel still writes from is alive: the registry holds its OVERLAPPED and its
      buffer, also after the future that submitted it was dropped. */
  lemma KernelMemoryIsAlive(events: seq<Event>, a: Addr)
    requires a in Run(events).kernel
    ensures var s := Run(events);
            a in s.registry && s.registry[a] == s.kernel[a] && s.kernel[a].op < |s.writers|
            && s.registry[a].data == s.writers[s.kernel[a].op].data
            && a !in s.pool
  {
    var s := Run(events);
    Reachable(events);
    assert KernelInv(s, a);
    assert WriterInv(s, s.kernel[a].op);
    assert Places(s, a) <= 1;
  }

  /** Nobody is told a result twice, and what a future returns, or would have returned had it not
      been dropped, is the result of its own write. No packet is ever unknown to the registry. */
  lemma {:induction false} ResolvedOnceWithOwnResult(events: seq<Event>, op: nat)
    requires op < |Run(events).writers|
    ensures var s := Run(events);
            var w := s.writers[op];
            && (forall j, k | 0 <= j < k < |s.deliveries| :: s.deliveries[j] != s.deliveries[k])
            && (w.io.Resolved? <==> op in s.deliveries)
            && (w.control.Finished? ==> w.io == Resolved(w.control.result))
            && (op in s.sent ==> w.io == Resolved(s.sent[op]))
            && !s.unknown
  {
    Reachable(events);
    assert WriterInv(Run(events), op);
    if op in Run(events).sent {
      assert SentInv(Run(events), op);
    }
  }

  /** Once a result is fixed by the kernel it never changes on its way to the future. */
  predicate CarriesOn(was: Progress, now: Progress) {
    match was
    case Posted(r) => now == Posted(r) || now == Taken(r) || now == Resolved(r)
    case Taken(r) => now == Taken(r) || now == Resolved(r)
    case Resolved(r) => now == Resolved(r)
    case _ => true
  }

  lemma WriterStepCarries(s: State, i: nat, e: Event, op: nat)
    requires i < |s.writers| && op < |s.writers| && WriterInv(s, i)
    ensures op < |StepWriter(s, i, e).writers|
    ensures CarriesOn(s.writers[op].io, StepWriter(s, i, e).writers[op].io)
  {
  }

  lemma {:induction false} ResultsAreCarried(events: seq<Event>, e: Event, op: nat)
    requires op < |Run(events).writers|
    ensures op < |Step(Run(events), e).writers|
    ensures CarriesOn(Run(events).writers[op].io, Step(Run(events), e).writers[op].io)
  {
    var s := Run(events);
    Reachable(events);
    hide Run, OnePlace, StepWriter, WriterInv, RegistryInv, PacketInv, SentInv;
    match e
    case Lookup => if s.finishing.Nothing? && |s.packets| > 0 { LookupHits(s); }
    case Complete(a, _) =>
      if a in s.kernel {
        assert KernelInv(s, a);
      }
    case Send => assert FinishingInv(s);
    case Release =>
    case Acquire(_, _) =>
    case _ =>
      if e.op < |s.writers| {
        assert WriterInv(s, e.op);
        WriterStepCarries(s, e.op, e, op);
      }
  }

  /** All is quiet: no request in the kernel, no packet, nothing in the poller's hand, and no
      writer in the middle of its submission. */
  predicate Quiet(s: State) {
    && s.kernel.Keys == {} && |s.packets| == 0 && s.finishing.Nothing?
    && forall op | 0 <= op < |s.writers| ::
         var c := s.writers[op].control; c.Awaiting? || c.Dropped? || c.Finished?
  }

  /** When all is quiet, every write has been resolved, also those whose future was dropped, and
      every OVERLAPPED is back in the pool. */
  lemma QuietMeansResolved(events: seq<Event>)
    requires Quiet(Run(events))
    ensures var s := Run(events);
            && (forall op | 0 <= op < |s.writers| :: s.writers[op].io.Resolved? && op in s.deliveries)
            && s.registry == map[]
            && (forall a | a in s.live :: a in s.pool)
  {
    var s := Run(events);
    Reachable(events);
    forall op | 0 <= op < |s.writers|
      ensures s.writers[op].io.Resolved? && op in s.deliveries
    {
      assert WriterInv(s, op);
    }
    forall a: Addr
      ensures a !in s.registry
    {
      QuietRegistry(s, a);
    }
    forall a | a in s.live
      ensures a in s.pool
    {
      assert Places(s, a) == 1;
      NoneHeld(s.writers, a);
    }
  }

  lemma QuietRegistry(s: State, a: Addr)
    requires Links(s) && Quiet(s)
    ensures a !in s.registry
  {
    if a in s.registry {
      RegistryPointsBack(s, a);
    }
  }

  lemma RegistryPointsBack(s: State, a: Addr)
    requires Links(s) && a in s.registry
    ensures var op := s.registry[a].op;
            && op < |s.writers| && s.writers[op].addr == a
            && (s.writers[op].control.Registered? || s.writers[op].control.SyncReturned? || s.writers[op].control.Refused?
                || a in s.kernel || |s.packets| > 0)
  {
    assert RegistryInv(s, a) && WriterInv(s, s.registry[a].op);
  }

  lemma {:induction false} NoneHeld(writers: seq<Writer>, a: Addr)
    requires forall op | 0 <= op < |writers| :: !writers[op].control.Holding?
    ensures HeldCount(writers, a) == 0
    decreases |writers|
  {
    if |writers| == 0 {
    } else {
      NoneHeld(writers[..|writers| - 1], a);
    }
  }

  ghost predicate IsReachable(s: State) {
    exists events :: Run(events) == s
  }

  /** A dropped future's guard finds its own write exactly as long as the poller has not taken
      that write's entry; after that it finds nothing, or whatever write has the address now. */
  lemma GuardHitsOwnWriteIff(s: State, op: nat)
    requires IsReachable(s) && op < |s.writers| && s.writers[op].control.Awaiting?
    ensures var w := s.writers[op];
            (w.addr in s.registry && s.registry[w.addr].op == op) <==> (w.io.InKernel? || w.io.Posted?)
  {
    var events :| Run(events) == s;
    Reachable(events);
    assert WriterInv(s, op);
    if s.writers[op].addr in s.registry {
      assert RegistryInv(s, s.writers[op].addr);
    }
  }

  /** A dropped future's guard cancels a write that is not its own exactly when its own result has
      already been sent and some write is registered under its key: a guard whose result is still to come
      can only hit its own write. */
  lemma GuardHitsAnotherIff(s: State, op: nat)
    requires IsReachable(s) && op < |s.writers| && s.writers[op].control.Awaiting?
    ensures var w := s.writers[op];
            && ((w.addr in s.registry && s.registry[w.addr].op != op) <==> (w.addr in s.registry && op in s.sent))
            && ((w.addr in s.registry && s.registry[w.addr].op == op) <==> (w.addr in s.registry && op !in s.sent))
            && Step(s, Drop(op)).cancels == if w.addr in s.registry then s.cancels + [(op, s.registry[w.addr].op)] else s.cancels
  {
    hide Step;
    var a := s.writers[op].addr;
    var events :| Run(events) == s;
    Reachable(events);
    DropNotes(s, op);
    assert WriterInv(s, op);
    if a in s.registry {
      assert RegistryInv(s, a);
      assert Places(s, a) <= 1;
      if op in s.sent {
        assert SentInv(s, op);
      }
    }
  }

  lemma DropNotes(s: State, op: nat)
    requires op < |s.writers| && s.writers[op].control.Awaiting?
    ensures var a := s.writers[op].addr;
            Step(s, Drop(op)).cancels == if a in s.registry then s.cancels + [(op, s.registry[a].op)] else s.cancels
  {
  }

  lemma ReachNext(s: State, e: Event) returns (s': State)
    requires IsReachable(s)
    ensures s' == Step(s, e) && IsReachable(s')
  {
    s' := Step(s, e);
    var events :| Run(events) == s;
    assert (events + [e])[..|events|] == events;
    assert Run(events + [e]) == s';
  }

  lemma FirstWriteHeld(a: Addr, x: Bytes) returns (s: State)
    ensures IsReachable(s)
    ensures s == State([], map[], map[], [], Nothing, [Writer(x, a, Holding, Idle)], map[], [], {a}, [], false)
  {
    assert Run([]) == Start();
    hide Run, IsReachable;
    s := ReachNext(Start(), Acquire(x, a));
  }

  lemma FirstWriteRegistered(a: Addr, x: Bytes) returns (s: State)
    ensures IsReachable(s)
    ensures s == State([], map[a := Pending(0, x)], map[], [], Nothing, [Writer(x, a, Registered, Idle)], map[], [], {a}, [], false)
  {
    hide Run, IsReachable;
    s := FirstWriteHeld(a, x);
    s := ReachNext(s, Register(0));
  }

  /** Write 0 is in the kernel and its future waits. */
  lemma FirstWritePending(a: Addr, x: Bytes) returns (s: State)
    ensures IsReachable(s)
    ensures s == State([], map[a := Pending(0, x)], map[a := Pending(0, x)], [], Nothing,
                       [Writer(x, a, Awaiting, InKernel)], map[], [], {a}, [], false)
  {
    hide Run, IsReachable;
    s := FirstWriteRegistered(a, x);
    s := ReachNext(s, WriteFilePending(0));
    s := ReachNext(s, Arm(0));
  }

  /** The poller has taken its packet and its registry entry. */
  lemma FirstWriteTaken(a: Addr, x: Bytes, r: Result) returns (s: State)
    ensures IsReachable(s)
    ensures s == State([], map[], map[], [], InHand(a, 0, r, false),
                       [Writer(x, a, Awaiting, Taken(r))], map[], [], {a}, [], false)
  {
    hide Run, IsReachable;
    s := FirstWritePending(a, x);
    var w, p := Writer(x, a, Awaiting, InKernel), Pending(0, x);
    s := ReachNext(s, Complete(a, r));
    assert s == State([], map[a := p], map[], [Packet(a, r)], Nothing, [w.(io := Posted(r))], map[], [], {a}, [], false);
    s := ReachNext(s, Lookup);
  }

  /** Its result is sent and its OVERLAPPED is back in the pool; its future has not looked yet. */
  lemma FirstWriteDone(a: Addr, x: Bytes, r: Result) returns (s: State)
    ensures IsReachable(s)
    ensures s == State([a], map[], map[], [], Nothing, [Writer(x, a, Awaiting, Resolved(r))],
                       map[0 := r], [0], {a}, [], false)
  {
    hide Run, IsReachable;
    s := FirstWriteTaken(a, x, r);
    s := ReachNext(s, Send);
    assert s == State([], map[], map[], [], InHand(a, 0, r, true), [Writer(x, a, Awaiting, Resolved(r))],
                      map[0 := r], [0], {a}, [], false);
    s := ReachNext(s, Release);
  }

  /** Write 1 has got the same OVERLAPPED. */
  lemma SecondWriteRegistered(a: Addr, x: Bytes, y: Bytes, r: Result) returns (s: State)
    ensures IsReachable(s)
    ensures s == State([], map[a := Pending(1, y)], map[], [], Nothing,
                       [Writer(x, a, Awaiting, Resolved(r)), Writer(y, a, Registered, Idle)],
                       map[0 := r], [0], {a}, [], false)
  {
    hide Run, IsReachable;
    s := FirstWriteDone(a, x, r);
    s := ReachNext(s, Acquire(y, a + 1));
    assert s == State([], map[], map[], [], Nothing,
                      [Writer(x, a, Awaiting, Resolved(r)), Writer(y, a, Holding, Idle)],
                      map[0 := r], [0], {a}, [], false);
    s := ReachNext(s, Register(1));
  }

  /** And now the future of write 0 is dropped: its guard cancels write 1. */
  lemma GuardCanHitAnotherWrite(a: Addr, x: Bytes, y: Bytes, r: Result) returns (s: State)
    ensures IsReachable(s) && s.cancels == [(0, 1)]
    ensures |s.writers| == 2 && s.writers[0].io == Resolved(r) && s.writers[1].io == InKernel
  {
    hide Run, IsReachable;
    s := SecondWriteRegistered(a, x, y, r);
    s := ReachNext(s, WriteFilePending(1));
    s := ReachNext(s, Drop(0));
  }
}
