/** The buffer pool: a bounded queue of reusable buffers, a semaphore that bounds how many are out,
    and a counter of buffers out. `alloc`, `release` and `prewarm` are taken step by step, so that
    any number of them may interleave. Buffers carry identities. */
module BufferPools {
  import Arithmetic
  import opened ByteStore

  datatype Warmer =
    | Starting
    | Loaded(outstanding: int)
    | Checking(left: nat)      // about to ask whether the queue is full
    | Pushing(left: nat)
    | Finished

  /** The calls in progress appear by the step they have reached. `charged`: permit taken;
      `counted`: counted as out, no buffer yet; `returning`: no longer counted, not yet queued;
      `pushed`: queued or dropped, permit not yet back. `discarded` counts the buffers `release`
      had to drop. */
  datatype Pool = Pool(permits: nat, outstanding: int, queue: seq<nat>, made: nat,
                       charged: nat, counted: nat, held: set<nat>, returning: set<nat>, pushed: nat,
                       discarded: nat, warmers: seq<Warmer>)

  datatype Event =
    | TakePermit
    | CountOut
    | Pop
    | CountIn(buffer: nat)
    | Push(buffer: nat)
    | GivePermit
    | StartWarmer
    | StepWarmer(i: nat)

  /** `ArrayQueue::new(capacity.max(1))`. */
  function QueueLimit(capacity: nat): nat {
    Arithmetic.Max(capacity, 1)
  }

  function SaturatingSub(a: int, b: int): nat {
    if a > b then a - b else 0
  }

  /** How many buffers `prewarm` means to add. */
  function Missing(capacity: nat, outstanding: int, queued: nat): nat {
    SaturatingSub(SaturatingSub(capacity, outstanding), queued)
  }

  function New(capacity: nat): Pool {
    Pool(capacity, 0, [], 0, 0, 0, {}, {}, 0, 0, [])
  }

  function Numbers(from: nat, n: nat): (s: seq<nat>)
    ensures |s| == n && forall i | 0 <= i < n :: s[i] == from + i
  {
    seq(n, i requires 0 <= i => from + i)
  }

  function Prefilled(capacity: nat): Pool {
    New(capacity).(queue := Numbers(0, capacity), made := capacity)
  }

  function StepOne(capacity: nat, p: Pool, i: nat): Pool
    requires i < |p.warmers|
  {
    match p.warmers[i]
    case Starting => p.(warmers := p.warmers[i := Loaded(p.outstanding)])
    case Loaded(n) => p.(warmers := p.warmers[i := Checking(Missing(capacity, n, |p.queue|))])
    case Checking(left) =>
      if left == 0 || |p.queue| >= QueueLimit(capacity) then p.(warmers := p.warmers[i := Finished])
      else p.(warmers := p.warmers[i := Pushing(left)])
    case Pushing(left) =>
      var q := p.(warmers := p.warmers[i := Checking(SaturatingSub(left, 1))], made := p.made + 1);
      if |p.queue| >= QueueLimit(capacity) then q else q.(queue := p.queue + [p.made])
    case Finished => p
  }

  /** A step that cannot be taken changes nothing. */
  function Step(capacity: nat, p: Pool, e: Event): Pool {
    match e
    case TakePermit => if p.permits == 0 then p else p.(permits := p.permits - 1, charged := p.charged + 1)
    case CountOut =>
      if p.charged == 0 then p
      else p.(charged := p.charged - 1, outstanding := p.outstanding + 1, counted := p.counted + 1)
    case Pop =>
      if p.counted == 0 then p
      else if |p.queue| > 0 then p.(counted := p.counted - 1, queue := p.queue[1..], held := p.held + {p.queue[0]})
      else p.(counted := p.counted - 1, made := p.made + 1, held := p.held + {p.made})
    case CountIn(b) =>
      if b !in p.held then p
      else p.(held := p.held - {b}, outstanding := p.outstanding - 1, returning := p.returning + {b})
    case Push(b) =>
      if b !in p.returning then p
      else
        var q := p.(returning := p.returning - {b}, pushed := p.pushed + 1);
        if |p.queue| >= QueueLimit(capacity) then q.(discarded := p.discarded + 1) else q.(queue := p.queue + [b])
    case GivePermit => if p.pushed == 0 then p else p.(pushed := p.pushed - 1, permits := p.permits + 1)
    case StartWarmer => p.(warmers := p.warmers + [Starting])
    case StepWarmer(i) => if i < |p.warmers| then StepOne(capacity, p, i) else p
  }

  function Run(capacity: nat, p: Pool, events: seq<Event>): Pool {
    var n := |events|;
    if n == 0 then p else Step(capacity, Run(capacity, p, events[..n - 1]), events[n - 1])
  }

  // ---- What every interleaving keeps ----

  /** Every permit is free or accounted for by one call in progress, and the counter is the number
      of buffers out or on their way out. */
  predicate Books(capacity: nat, p: Pool) {
    && p.permits + p.charged + p.counted + |p.held| + |p.returning| + p.pushed == capacity
    && p.outstanding == p.counted + |p.held|
    && |p.queue| <= QueueLimit(capacity)
  }

  /** No buffer is in two places. */
  ghost predicate InOnePlace(p: Pool) {
    && (forall i, j | 0 <= i < j < |p.queue| :: p.queue[i] != p.queue[j])
    && (forall i | 0 <= i < |p.queue| :: p.queue[i] < p.made && p.queue[i] !in p.held && p.queue[i] !in p.returning)
    && (forall b | b in p.held :: b < p.made && b !in p.returning)
    && (forall b | b in p.returning :: b < p.made)
  }

  lemma PopKeepsBooks(capacity: nat, p: Pool)
    requires Books(capacity, p) && InOnePlace(p)
    ensures Books(capacity, Step(capacity, p, Pop)) && InOnePlace(Step(capacity, p, Pop))
  {
    if |p.queue| > 0 {
      assert p.queue[0] !in p.held;
    } else {
      assert p.made !in p.held;
    }
  }

  lemma ReturnKeepsBooks(capacity: nat, p: Pool, e: Event)
    requires Books(capacity, p) && InOnePlace(p) && (e.CountIn? || e.Push?)
    ensures Books(capacity, Step(capacity, p, e)) && InOnePlace(Step(capacity, p, e))
  {
  }

  lemma WarmerKeepsBooks(capacity: nat, p: Pool, i: nat)
    requires Books(capacity, p) && InOnePlace(p) && i < |p.warmers|
    ensures Books(capacity, StepOne(capacity, p, i)) && InOnePlace(StepOne(capacity, p, i))
  {
  }

  lemma {:induction false} StepKeepsBooks(capacity: nat, p: Pool, e: Event)
    requires Books(capacity, p) && InOnePlace(p)
    ensures Books(capacity, Step(capacity, p, e)) && InOnePlace(Step(capacity, p, e))
  {
    match e
    case Pop => PopKeepsBooks(capacity, p);
    case StepWarmer(i) =>
      if i < |p.warmers| {
        WarmerKeepsBooks(capacity, p, i);
      }
    case CountIn(b) => ReturnKeepsBooks(capacity, p, e);
    case Push(b) => ReturnKeepsBooks(capacity, p, e);
    case TakePermit =>
    case CountOut =>
    case GivePermit =>
    case StartWarmer =>
  }

  /** In every interleaving of allocations, releases and prewarms the permits balance, the counter of
      buffers out never underflows, and no buffer is handed to two owners. */
  lemma {:induction false} BooksBalance(capacity: nat, p: Pool, events: seq<Event>)
    requires p == New(capacity) || p == Prefilled(capacity)
    ensures var q := Run(capacity, p, events);
            && q.permits + q.charged + q.outstanding + |q.returning| + q.pushed == capacity
            && 0 <= q.outstanding == q.counted + |q.held|
            && Books(capacity, q) && InOnePlace(q)
  {
    var n := |events|;
    if n == 0 {
    } else {
      BooksBalance(capacity, p, events[..n - 1]);
      StepKeepsBooks(capacity, Run(capacity, p, events[..n - 1]), events[n - 1]);
    }
  }

  // ---- When a release finds room ----

  /** All the buffers in existence fit the capacity. */
  predicate Fits(capacity: nat, p: Pool) {
    |p.queue| + |p.held| + |p.returning| <= capacity
  }

  predicate OfWarmer(e: Event) {
    e.StartWarmer? || e.StepWarmer?
  }

  lemma StepKeepsFit(capacity: nat, p: Pool, e: Event)
    requires Books(capacity, p) && InOnePlace(p) && Fits(capacity, p) && !OfWarmer(e)
    ensures Fits(capacity, Step(capacity, p, e)) && Step(capacity, p, e).discarded == p.discarded
  {
    if e.Pop? && p.counted > 0 && |p.queue| > 0 {
      assert p.queue[0] !in p.held;
    }
  }

  lemma {:induction false} FitKeepsBuffers(capacity: nat, p: Pool, events: seq<Event>)
    requires Books(capacity, p) && InOnePlace(p) && Fits(capacity, p)
    requires forall i | 0 <= i < |events| :: !OfWarmer(events[i])
    ensures var q := Run(capacity, p, events);
            Books(capacity, q) && InOnePlace(q) && Fits(capacity, q) && q.discarded == p.discarded
  {
    var n := |events|;
    if n == 0 {
    } else {
      FitKeepsBuffers(capacity, p, events[..n - 1]);
      var q := Run(capacity, p, events[..n - 1]);
      StepKeepsBooks(capacity, q, events[n - 1]);
      StepKeepsFit(capacity, q, events[n - 1]);
    }
  }

  /** Whatever allocations and releases follow, none of the buffers is dropped. */
  ghost predicate NeverDiscardsFrom(capacity: nat, p: Pool) {
    forall events | (forall i | 0 <= i < |events| :: !OfWarmer(events[i])) ::
      Run(capacity, p, events).discarded == p.discarded
  }

  /** As long as no prewarm runs, a release has room for its buffer, now and ever after, exactly when
      all the buffers in existence fit the capacity. */
  lemma NeverDiscardsIff(capacity: nat, p: Pool)
    requires Books(capacity, p) && InOnePlace(p) && capacity > 0
    ensures NeverDiscardsFrom(capacity, p) <==> Fits(capacity, p)
  {
    if Fits(capacity, p) {
      forall events | forall i | 0 <= i < |events| :: !OfWarmer(events[i])
        ensures Run(capacity, p, events).discarded == p.discarded
      {
        FitKeepsBuffers(capacity, p, events);
      }
    } else {
      var events := Overflow(capacity, p);
      assert Run(capacity, p, events).discarded != p.discarded;
    }
  }

  /** Returning every buffer that is out overflows the queue. */
  lemma {:induction false} Overflow(capacity: nat, p: Pool) returns (events: seq<Event>)
    requires Books(capacity, p) && InOnePlace(p) && !Fits(capacity, p) && capacity > 0
    ensures forall i | 0 <= i < |events| :: !OfWarmer(events[i])
    ensures Run(capacity, p, events).discarded > p.discarded
    decreases |p.held|, |p.returning|
  {
    if |p.held| > 0 {
      var b :| b in p.held;
      var q := Step(capacity, p, CountIn(b));
      StepKeepsBooks(capacity, p, CountIn(b));
      var rest := Overflow(capacity, q);
      RunCons(capacity, p, CountIn(b), rest);
      events := [CountIn(b)] + rest;
    } else {
      var b :| b in p.returning;
      var q := Step(capacity, p, Push(b));
      RunCons(capacity, p, Push(b), []);
      if |p.queue| >= QueueLimit(capacity) {
        events := [Push(b)];
        assert [Push(b)] + [] == events;
      } else {
        StepKeepsBooks(capacity, p, Push(b));
        var rest := Overflow(capacity, q);
        RunCons(capacity, p, Push(b), rest);
        events := [Push(b)] + rest;
      }
    }
  }

  lemma {:induction false} RunCons(capacity: nat, p: Pool, e: Event, rest: seq<Event>)
    ensures Run(capacity, p, [e] + rest) == Run(capacity, Step(capacity, p, e), rest)
    decreases |rest|
  {
    var n := |rest|;
    var all := [e] + rest;
    if n == 0 {
      assert all[..0] == [] && all == [e];
    } else {
      RunCons(capacity, p, e, rest[..n - 1]);
      assert all[..n] == [e] + rest[..n - 1];
    }
  }

  // ---- Prewarming ----

  /** A whole `prewarm` with nothing else in between. */
  function PrewarmAtOnce(capacity: nat, p: Pool): Pool {
    var n := Missing(capacity, p.outstanding, |p.queue|);
    p.(queue := p.queue + Numbers(p.made, n), made := p.made + n, warmers := p.warmers + [Finished])
  }

  /** The steps of one prewarm, taken by the newest warmer. */
  function WarmerSteps(i: nat, left: nat): seq<Event> {
    if left == 0 then [StepWarmer(i)] else [StepWarmer(i), StepWarmer(i)] + WarmerSteps(i, left - 1)
  }

  lemma {:induction false} FillsAtOnce(capacity: nat, p: Pool, i: nat, left: nat)
    requires i < |p.warmers| && p.warmers[i] == Checking(left) && |p.queue| + left <= capacity
    ensures Run(capacity, p, WarmerSteps(i, left)) == Filled(p, i, left)
    decreases left
  {
    hide Run, Step, StepOne;
    if left == 0 {
      EndsAtOnce(capacity, p, i);
      assert p.queue + Numbers(p.made, 0) == p.queue;
    } else {
      var rest := WarmerSteps(i, left - 1);
      var r := OneFilled(capacity, p, i, left);
      RunCons(capacity, Step(capacity, p, StepWarmer(i)), StepWarmer(i), rest);
      RunCons(capacity, p, StepWarmer(i), [StepWarmer(i)] + rest);
      assert [StepWarmer(i)] + ([StepWarmer(i)] + rest) == WarmerSteps(i, left);
      FillsAtOnce(capacity, r, i, left - 1);
      assert r.queue + Numbers(r.made, left - 1) == p.queue + Numbers(p.made, left);
      assert r.warmers[i := Finished] == p.warmers[i := Finished];
    }
  }

  function Filled(p: Pool, i: nat, n: nat): Pool
    requires i < |p.warmers|
  {
    p.(queue := p.queue + Numbers(p.made, n), made := p.made + n, warmers := p.warmers[i := Finished])
  }

  lemma OneFilled(capacity: nat, p: Pool, i: nat, left: nat) returns (r: Pool)
    requires i < |p.warmers| && p.warmers[i] == Checking(left) && |p.queue| + left <= capacity && left > 0
    ensures r == p.(queue := p.queue + [p.made], made := p.made + 1, warmers := p.warmers[i := Checking(left - 1)])
    ensures r == Step(capacity, Step(capacity, p, StepWarmer(i)), StepWarmer(i))
  {
    r := p.(queue := p.queue + [p.made], made := p.made + 1, warmers := p.warmers[i := Checking(left - 1)]);
    assert p.warmers[i := Pushing(left)][i := Checking(left - 1)] == r.warmers;
  }

  /** Taken without interruption, the steps of a prewarm are `PrewarmAtOnce`. */
  lemma PrewarmRuns(capacity: nat, p: Pool)
    requires Books(capacity, p)
    ensures var i, n := |p.warmers|, Missing(capacity, p.outstanding, |p.queue|);
            Run(capacity, p, [StartWarmer, StepWarmer(i), StepWarmer(i)] + WarmerSteps(i, n)) == PrewarmAtOnce(capacity, p)
  {
    hide Run, Step, StepOne;
    var i, n := |p.warmers|, Missing(capacity, p.outstanding, |p.queue|);
    var steps := WarmerSteps(i, n);
    var p3 := Starts(capacity, p);
    var p1 := Step(capacity, p, StartWarmer);
    RunCons(capacity, Step(capacity, p1, StepWarmer(i)), StepWarmer(i), steps);
    RunCons(capacity, p1, StepWarmer(i), [StepWarmer(i)] + steps);
    RunCons(capacity, p, StartWarmer, [StepWarmer(i)] + ([StepWarmer(i)] + steps));
    assert [StartWarmer] + ([StepWarmer(i)] + ([StepWarmer(i)] + steps))
        == [StartWarmer, StepWarmer(i), StepWarmer(i)] + steps;
    if n == 0 {
      EndsAtOnce(capacity, p3, i);
    } else {
      FillsAtOnce(capacity, p3, i, n);
    }
    assert p3.warmers[i := Finished] == p.warmers + [Finished];
    assert p.queue + Numbers(p.made, 0) == p.queue;
  }

  lemma Starts(capacity: nat, p: Pool) returns (r: Pool)
    ensures r == p.(warmers := p.warmers + [Checking(Missing(capacity, p.outstanding, |p.queue|))])
    ensures var i := |p.warmers|;
            r == Step(capacity, Step(capacity, Step(capacity, p, StartWarmer), StepWarmer(i)), StepWarmer(i))
  {
    var i, c := |p.warmers|, Checking(Missing(capacity, p.outstanding, |p.queue|));
    r := p.(warmers := p.warmers + [c]);
    assert (p.warmers + [Starting])[i := Loaded(p.outstanding)][i := c] == r.warmers;
  }

  lemma EndsAtOnce(capacity: nat, p: Pool, i: nat)
    requires i < |p.warmers| && p.warmers[i] == Checking(0)
    ensures Run(capacity, p, WarmerSteps(i, 0)) == p.(warmers := p.warmers[i := Finished])
  {
    RunCons(capacity, p, StepWarmer(i), []);
    assert [StepWarmer(i)] + [] == WarmerSteps(i, 0);
  }

  /** An uninterrupted prewarm leaves room for every buffer still out exactly when it adds nothing,
      or when at least as many calls are on their way to a buffer as are on their way back with one:
      it takes the counter's word for how many buffers are out. */
  lemma PrewarmFitsIff(capacity: nat, p: Pool)
    requires Books(capacity, p) && InOnePlace(p) && Fits(capacity, p)
    ensures Books(capacity, PrewarmAtOnce(capacity, p)) && InOnePlace(PrewarmAtOnce(capacity, p))
    ensures Fits(capacity, PrewarmAtOnce(capacity, p))
       <==> |p.queue| + p.outstanding >= capacity || |p.returning| <= p.counted
  {
  }

  // ---- Runs with uninterrupted prewarms ----

  datatype Move = Single(e: Event) | Prewarm

  function DoMove(capacity: nat, p: Pool, m: Move): Pool {
    match m
    case Single(e) => Step(capacity, p, e)
    case Prewarm => PrewarmAtOnce(capacity, p)
  }

  function RunMoves(capacity: nat, p: Pool, moves: seq<Move>): Pool {
    var n := |moves|;
    if n == 0 then p else DoMove(capacity, RunMoves(capacity, p, moves[..n - 1]), moves[n - 1])
  }

  predicate NoLooseWarmers(moves: seq<Move>) {
    forall i | 0 <= i < |moves| :: moves[i].Single? ==> !OfWarmer(moves[i].e)
  }

  /** Every prewarm of the run adds nothing, or comes when no more buffers are on their way back than
      calls are on their way to one. */
  predicate Calm(capacity: nat, p: Pool, moves: seq<Move>) {
    var n := |moves|;
    n == 0
    || (&& Calm(capacity, p, moves[..n - 1])
        && var q := RunMoves(capacity, p, moves[..n - 1]);
           (moves[n - 1].Prewarm? ==> |q.queue| + q.outstanding >= capacity || |q.returning| <= q.counted))
  }

  ghost predicate AlwaysFits(capacity: nat, p: Pool, moves: seq<Move>) {
    forall n | 0 <= n <= |moves| :: Fits(capacity, RunMoves(capacity, p, moves[..n]))
  }

  /** Allocations and releases step by step, prewarms uninterrupted: the buffers in existence fit the
      capacity all along exactly when every prewarm is well timed, and then no release drops one. */
  lemma {:induction false} CalmIff(capacity: nat, p: Pool, moves: seq<Move>)
    requires Books(capacity, p) && InOnePlace(p) && Fits(capacity, p) && NoLooseWarmers(moves)
    ensures Calm(capacity, p, moves) <==> AlwaysFits(capacity, p, moves)
    ensures Calm(capacity, p, moves) ==>
              Books(capacity, RunMoves(capacity, p, moves)) && InOnePlace(RunMoves(capacity, p, moves))
    ensures Calm(capacity, p, moves) ==> RunMoves(capacity, p, moves).discarded == p.discarded
  {
    var n := |moves|;
    if n == 0 {
      assert moves[..0] == moves;
    } else {
      var init, m := moves[..n - 1], moves[n - 1];
      CalmIff(capacity, p, init);
      PrefixesFit(capacity, p, moves);
      if AlwaysFits(capacity, p, init) {
        assert init[..n - 1] == init;
        var q := RunMoves(capacity, p, init);
        assert Fits(capacity, q);
        match m
        case Single(e) =>
          StepKeepsBooks(capacity, q, e);
          StepKeepsFit(capacity, q, e);
        case Prewarm =>
          PrewarmFitsIff(capacity, q);
      }
    }
  }

  lemma {:induction false} PrefixesFit(capacity: nat, p: Pool, moves: seq<Move>)
    requires |moves| > 0
    ensures AlwaysFits(capacity, p, moves)
       <==> AlwaysFits(capacity, p, moves[..|moves| - 1]) && Fits(capacity, RunMoves(capacity, p, moves))
  {
    hide RunMoves, Fits;
    var init := moves[..|moves| - 1];
    assert moves[..|moves|] == moves;
    forall n | 0 <= n < |moves|
      ensures init[..n] == moves[..n]
    {
    }
    if AlwaysFits(capacity, p, moves) {
      forall n | 0 <= n <= |init|
        ensures Fits(capacity, RunMoves(capacity, p, init[..n]))
      {
        assert Fits(capacity, RunMoves(capacity, p, moves[..n]));
      }
    }
    if AlwaysFits(capacity, p, init) && Fits(capacity, RunMoves(capacity, p, moves)) {
      forall n | 0 <= n <= |moves|
        ensures Fits(capacity, RunMoves(capacity, p, moves[..n]))
      {
        if n < |moves| {
          assert Fits(capacity, RunMoves(capacity, p, init[..n]));
        }
      }
    }
  }

  /** Such a run is a run of single steps. */
  lemma {:induction false} MovesAreSteps(capacity: nat, p: Pool, moves: seq<Move>) returns (events: seq<Event>)
    requires Books(capacity, p) && InOnePlace(p) && Fits(capacity, p) && NoLooseWarmers(moves)
    requires Calm(capacity, p, moves)
    ensures Run(capacity, p, events) == RunMoves(capacity, p, moves)
  {
    var n := |moves|;
    if n == 0 {
      events := [];
    } else {
      var init := moves[..n - 1];
      events := MovesAreSteps(capacity, p, init);
      CalmIff(capacity, p, init);
      var q := RunMoves(capacity, p, init);
      var more;
      match moves[n - 1] {
        case Single(e) =>
          more := [e];
          assert more[..0] == [];
        case Prewarm =>
          var i := |q.warmers|;
          more := [StartWarmer, StepWarmer(i), StepWarmer(i)]
                  + WarmerSteps(i, Missing(capacity, q.outstanding, |q.queue|));
          PrewarmRuns(capacity, q);
      }
      RunConcat(capacity, p, events, more);
      events := events + more;
    }
  }

  // ---- A prewarm that races a release, or an allocation ----

  ghost predicate NeverDiscards(capacity: nat) {
    forall events :: Run(capacity, New(capacity), events).discarded == 0
  }

  /** Over all interleavings, prewarms included, `release` drops no buffer exactly when the pool has
      no capacity at all: one buffer on its way back is enough for a prewarm to take its place. */
  lemma NeverDiscardsIffNoCapacity(capacity: nat)
    ensures NeverDiscards(capacity) <==> capacity == 0
  {
    if capacity == 0 {
      forall events
        ensures Run(capacity, New(capacity), events).discarded == 0
      {
        NothingToDiscard(events);
      }
    } else {
      var events := RacingPrewarm(capacity);
      assert Run(capacity, New(capacity), events).discarded == 1;
    }
  }

  lemma {:induction false} NothingToDiscard(events: seq<Event>)
    ensures Run(0, New(0), events).discarded == 0
  {
    var n := |events|;
    if n == 0 {
    } else {
      NothingToDiscard(events[..n - 1]);
      BooksBalance(0, New(0), events[..n - 1]);
      var p := Run(0, New(0), events[..n - 1]);
      assert |p.returning| == 0;
      assert p.returning == {};
    }
  }

  lemma {:induction false} RunConcat(capacity: nat, p: Pool, first: seq<Event>, second: seq<Event>)
    ensures Run(capacity, p, first + second) == Run(capacity, Run(capacity, p, first), second)
    decreases |second|
  {
    var n := |second|;
    if n == 0 {
      assert first + second == first;
    } else {
      RunConcat(capacity, p, first, second[..n - 1]);
      assert (first + second)[..|first + second| - 1] == first + second[..n - 1];
    }
  }

  lemma RacingPrewarm(capacity: nat) returns (events: seq<Event>)
    requires capacity > 0
    ensures Run(capacity, New(capacity), events).discarded == 1
  {
    var p := New(capacity);
    var p1 := Step(capacity, p, TakePermit);
    var p2 := Step(capacity, p1, CountOut);
    var p3 := Step(capacity, p2, Pop);
    var p4 := Step(capacity, p3, CountIn(0));
    RunCons(capacity, p3, CountIn(0), []);
    RunCons(capacity, p2, Pop, [CountIn(0)] + []);
    RunCons(capacity, p1, CountOut, [Pop] + ([CountIn(0)] + []));
    RunCons(capacity, p, TakePermit, [CountOut] + ([Pop] + ([CountIn(0)] + [])));
    var release := [TakePermit] + ([CountOut] + ([Pop] + ([CountIn(0)] + [])));
    assert Run(capacity, p, release) == p4;
    PrewarmRuns(capacity, p4);
    var prewarm := [StartWarmer, StepWarmer(0), StepWarmer(0)] + WarmerSteps(0, capacity);
    RunConcat(capacity, p, release, prewarm);
    var q := PrewarmAtOnce(capacity, p4);
    assert |q.queue| == capacity && 0 in q.returning;
    events := (release + prewarm) + [Push(0)];
    assert events[..|events| - 1] == release + prewarm;
  }

  /** An allocation in the middle of a prewarm does it as well: the prewarm has counted on a capacity
      that is out by the time it fills the queue. */
  lemma RacingAlloc(capacity: nat) returns (events: seq<Event>)
    requires capacity > 0
    ensures Run(capacity, New(capacity), events).discarded == 1
  {
    hide Run;
    var p := New(capacity);
    var begin := [StartWarmer, StepWarmer(0), StepWarmer(0)];
    var alloc := [TakePermit, CountOut, Pop];
    var p1 := Starts(capacity, p);
    ThreeSteps(capacity, p, StartWarmer, StepWarmer(0), StepWarmer(0));
    ThreeSteps(capacity, p1, TakePermit, CountOut, Pop);
    var p2 := Step(capacity, Step(capacity, Step(capacity, p1, TakePermit), CountOut), Pop);
    assert p2.warmers == [Checking(capacity)] && p2.held == {0} && p2.queue == [];
    FillsAtOnce(capacity, p2, 0, capacity);
    var p3 := Filled(p2, 0, capacity);
    assert |p3.queue| == capacity && p3.returning == {};
    ThreeSteps(capacity, p3, CountIn(0), Push(0), GivePermit);
    RunConcat(capacity, p, begin, alloc);
    RunConcat(capacity, p, begin + alloc, WarmerSteps(0, capacity));
    RunConcat(capacity, p, begin + alloc + WarmerSteps(0, capacity), [CountIn(0), Push(0), GivePermit]);
    events := begin + alloc + WarmerSteps(0, capacity) + [CountIn(0), Push(0), GivePermit];
  }

  /** So does one that comes between the prewarm's two readings: it trusts the counter as it was. */
  lemma StaleCounter(capacity: nat) returns (after: seq<Event>)
    requires capacity > 0
    ensures Run(capacity, New(capacity),
                [StartWarmer, StepWarmer(0), TakePermit, CountOut, Pop, StepWarmer(0)] + after).discarded == 1
  {
    hide Run;
    var begin := [StartWarmer, StepWarmer(0), TakePermit, CountOut, Pop, StepWarmer(0)];
    var release := [CountIn(0), Push(0), GivePermit];
    var p := CountsBefore(capacity, begin);
    FillsAtOnce(capacity, p, 0, capacity);
    var q := Filled(p, 0, capacity);
    assert |q.queue| == capacity && q.returning == {};
    ThreeSteps(capacity, q, CountIn(0), Push(0), GivePermit);
    after := WarmerSteps(0, capacity) + release;
    RunConcat(capacity, p, WarmerSteps(0, capacity), release);
    RunConcat(capacity, New(capacity), begin, after);
  }

  /** A buffer is out, and the prewarm means to fill the whole capacity. */
  lemma CountsBefore(capacity: nat, begin: seq<Event>) returns (p: Pool)
    requires capacity > 0 && begin == [StartWarmer, StepWarmer(0), TakePermit, CountOut, Pop, StepWarmer(0)]
    ensures Run(capacity, New(capacity), begin) == p
    ensures p == New(capacity).(permits := capacity - 1, outstanding := 1, made := 1, held := {0}, warmers := [Checking(capacity)])
  {
    var first, second := [StartWarmer, StepWarmer(0), TakePermit], [CountOut, Pop, StepWarmer(0)];
    assert begin == first + second;
    RunConcat(capacity, New(capacity), first, second);
    ThreeSteps(capacity, New(capacity), StartWarmer, StepWarmer(0), TakePermit);
    var q := Step(capacity, Step(capacity, Step(capacity, New(capacity), StartWarmer), StepWarmer(0)), TakePermit);
    assert q == New(capacity).(permits := capacity - 1, charged := 1, warmers := [Loaded(0)]);
    ThreeSteps(capacity, q, CountOut, Pop, StepWarmer(0));
    hide Run;
    p := Step(capacity, Step(capacity, Step(capacity, q, CountOut), Pop), StepWarmer(0));
  }

  // ---- The pool with whole operations ----

  class BufferPool {
    const bufferSize: nat
    const capacity: nat
    var queue: seq<nat>
    var permits: nat
    var outstanding: nat
    var made: nat
    ghost var held: set<nat>

    ghost function Snapshot(): Pool
      reads this
    {
      Pool(permits, outstanding, queue, made, 0, 0, held, {}, 0, 0, [])
    }

    /** The repository's invariant, and that the buffers in existence fit the capacity. */
    ghost predicate Valid()
      reads this
    {
      Books(capacity, Snapshot()) && InOnePlace(Snapshot()) && Fits(capacity, Snapshot())
      && permits + outstanding == capacity && |queue| + outstanding <= capacity
    }

    constructor (bufferSize: nat, capacity: nat)
      ensures Valid() && Snapshot() == New(capacity)
      ensures this.bufferSize == bufferSize && this.capacity == capacity
    {
      this.bufferSize, this.capacity := bufferSize, capacity;
      queue, permits, outstanding, made, held := [], capacity, 0, 0, {};
    }

    constructor WithPrefill(bufferSize: nat, capacity: nat)
      ensures Valid() && Snapshot() == Prefilled(capacity)
      ensures this.bufferSize == bufferSize && this.capacity == capacity
    {
      this.bufferSize, this.capacity := bufferSize, capacity;
      permits, outstanding, made, held := capacity, 0, 0, {};
      queue := [];
      new;
      for i := 0 to capacity
        invariant queue == Numbers(0, i) && made == i
        invariant permits == capacity && outstanding == 0 && held == {}
      {
        if |queue| < QueueLimit(capacity) {
          queue := queue + [made];
        }
        made := made + 1;
      }
    }

    /** Hands out the oldest queued buffer, or a new one when none is queued; without a permit the
        caller waits. */
    method Alloc() returns (buffer: Option<nat>)
      requires Valid()
      modifies this
      ensures Valid()
      ensures Snapshot() == Run(capacity, old(Snapshot()), [TakePermit, CountOut, Pop])
      ensures buffer.None? <==> old(outstanding) == capacity
      ensures buffer.None? ==> Snapshot() == old(Snapshot())
      ensures buffer.Some? ==> buffer.value in held && buffer.value !in old(held) && outstanding == old(outstanding) + 1
      ensures buffer.Some? && |old(queue)| > 0 ==> buffer.value == old(queue)[0] && queue == old(queue)[1..]
    {
      ThreeSteps(capacity, Snapshot(), TakePermit, CountOut, Pop);
      if permits == 0 {
        return None;
      }
      permits := permits - 1;
      outstanding := outstanding + 1;
      if |queue| > 0 {
        buffer := Some(queue[0]);
        queue := queue[1..];
      } else {
        buffer := Some(made);
        made := made + 1;
      }
      held := held + {buffer.value};
    }

    /** Takes a buffer back; there is always room for it. */
    method Release(buffer: nat)
      requires Valid() && buffer in held
      modifies this
      ensures Valid()
      ensures Snapshot() == Run(capacity, old(Snapshot()), [CountIn(buffer), Push(buffer), GivePermit])
      ensures queue == old(queue) + [buffer] && held == old(held) - {buffer}
      ensures outstanding == old(outstanding) - 1 && permits == old(permits) + 1
    {
      ThreeSteps(capacity, Snapshot(), CountIn(buffer), Push(buffer), GivePermit);
      outstanding := outstanding - 1;
      held := held - {buffer};
      if |queue| < QueueLimit(capacity) {
        queue := queue + [buffer];
      }
      permits := permits + 1;
    }

    /** Fills the queue up to what is not out. */
    method Prewarm()
      requires Valid()
      modifies this
      ensures Valid()
      ensures Snapshot() == PrewarmAtOnce(capacity, old(Snapshot())).(warmers := [])
      ensures |queue| + outstanding == capacity && old(queue) <= queue
    {
      var toFill := Missing(capacity, outstanding, |queue|);
      ghost var before := Snapshot();
      for i := 0 to toFill
        invariant Snapshot() == before.(queue := before.queue + Numbers(before.made, i), made := before.made + i)
        invariant Fits(capacity, Snapshot()) && InOnePlace(Snapshot())
      {
        if |queue| >= QueueLimit(capacity) {
          break;
        }
        queue := queue + [made];
        made := made + 1;
      }
    }
  }

  lemma {:induction false} ThreeSteps(capacity: nat, p: Pool, a: Event, b: Event, c: Event)
    ensures Run(capacity, p, [a, b, c]) == Step(capacity, Step(capacity, Step(capacity, p, a), b), c)
  {
    RunCons(capacity, p, a, [b, c]);
    RunCons(capacity, Step(capacity, p, a), b, [c]);
    RunCons(capacity, Step(capacity, Step(capacity, p, a), b), c, []);
    assert [a] + [b, c] == [a, b, c] && [b] + [c] == [b, c] && [c] + [] == [c];
  }
}
