/**
 Cross-core delivery into one target core: the single-producer/single-consumer
 rings of the mesh, the coalescing drain flag and the drain handler with its
 re-check. Every load, store and exchange of a shared variable is one step, and
 runs are arbitrary sequentially consistent interleavings of the source cores'
 posts with the target core's handler. Counters are unbounded naturals.
 */
module DrainProtocol {
  import opened Bits
  import opened Wrappers

  datatype Message = Message(op: nat, source: nat, data: nat)

  /** n cores, this inbox's own index, ring capacity 2^bits, batch limit of one drain call. */
  datatype Config = Config(n: nat, self: nat, bits: nat, limit: nat) {
    function Capacity(): nat { Pow2(bits) }
    function Slot(pos: nat): nat { MaskIndex(pos, bits) }
  }

  ghost predicate ValidConfig(c: Config) {
    c.self < c.n
  }

  /** One ring. `head` belongs to the producer, `tail` to the consumer. */
  datatype Ring = Ring(slots: seq<Message>, head: nat, tail: nat, published: nat, consumed: nat)

  /** Where a source core stands inside a post to this target. */
  datatype ProducerPc =
    | Idle
    | SawConsumed(msg: Message, seen: nat)
    | Wrote
    | Published
    | WonFlag

  /** Where the target's drain handler stands. */
  datatype HandlerPc =
    | NotRunning
    | Outer(start: nat, offset: nat, total: nat)
    | Inner(start: nat, offset: nat, total: nat, src: nat)
    | SawPublished(start: nat, offset: nat, total: nat, src: nat, pub: nat)
    | Took(start: nat, offset: nat, total: nat, src: nat, item: Message)
    | Dispatching(start: nat, offset: nat, total: nat, src: nat, item: Message)
    | Clearing
    | Recheck(src: nat)
    | RecheckSaw(src: nat, pub: nat)
    | FoundWork
    | WonFlagAgain

  /** `posted[i]` is every message core i ever wrote into its ring; `dispatched[i]` what the target handled. */
  datatype State = State(
    ring: seq<Ring>, pc: seq<ProducerPc>,
    flag: bool, queued: nat, h: HandlerPc, rotate: nat, drains: nat,
    posted: seq<seq<Message>>, dispatched: seq<seq<Message>>)

  datatype Action =
    | Post(src: nat, msg: Message)
    | Producer(src: nat)
    | StartHandler
    | Handler

  ghost predicate Init(c: Config, s: State) {
    && |s.ring| == |s.pc| == |s.posted| == |s.dispatched| == c.n
    && (forall i | 0 <= i < c.n ::
          && |s.ring[i].slots| == c.Capacity()
          && s.ring[i].head == s.ring[i].tail == s.ring[i].published == s.ring[i].consumed == 0
          && s.pc[i] == Idle && s.posted[i] == [] && s.dispatched[i] == [])
    && !s.flag && s.queued == 0 && s.h == NotRunning && s.rotate == 0 && s.drains == 0
  }

  predicate HasSource(h: HandlerPc) {
    h.Inner? || h.SawPublished? || h.Took? || h.Dispatching?
  }

  predicate Shape(c: Config, s: State) {
    && |s.ring| == |s.pc| == |s.posted| == |s.dispatched| == c.n
    && c.self < c.n
    && (forall i | 0 <= i < c.n :: |s.ring[i].slots| == c.Capacity())
    && (HasSource(s.h) ==> s.h.src < c.n)
  }

  predicate Enabled(c: Config, s: State, a: Action)
    requires Shape(c, s)
  {
    match a
    case Post(src, _) => src < c.n && src != c.self && s.pc[src].Idle?
    case Producer(src) => src < c.n && src != c.self && !s.pc[src].Idle?
    case StartHandler => s.h.NotRunning? && s.queued > 0
    case Handler => !s.h.NotRunning?
  }

  function Apply(c: Config, s: State, a: Action): State
    requires Shape(c, s) && Enabled(c, s, a)
  {
    match a
    case Post(src, msg) => s.(pc := s.pc[src := SawConsumed(msg, s.ring[src].consumed)])
    case Producer(src) => ProducerStep(c, s, src)
    case StartHandler => s.(queued := s.queued - 1, h := Outer(s.rotate, 0, 0))
    case Handler => HandlerStep(c, s)
  }

  /** The next shared access of a post: write, publish, exchange the flag, queue a handler. */
  function ProducerStep(c: Config, s: State, src: nat): State
    requires Shape(c, s) && src < c.n && !s.pc[src].Idle?
  {
    var r := s.ring[src];
    match s.pc[src]
    case SawConsumed(msg, seen) =>
      if r.head - seen >= c.Capacity() then s.(pc := s.pc[src := Idle])
      else
        var r' := r.(slots := r.slots[c.Slot(r.head) := msg], head := r.head + 1);
        s.(ring := s.ring[src := r'], pc := s.pc[src := Wrote], posted := s.posted[src := s.posted[src] + [msg]])
    case Wrote =>
      s.(ring := s.ring[src := r.(published := r.head)], pc := s.pc[src := Published])
    case Published =>
      s.(flag := true, pc := s.pc[src := if s.flag then Idle else WonFlag])
    case WonFlag =>
      s.(queued := s.queued + 1, pc := s.pc[src := Idle])
  }

  /** One step of the drain handler: batch-limited round over the sources, clear the flag, re-check. */
  function HandlerStep(c: Config, s: State): State
    requires Shape(c, s) && !s.h.NotRunning?
  {
    match s.h
    case Outer(start, offset, total) =>
      var src := (start + offset) % c.n;
      if offset < c.n && src == c.self then s.(h := Outer(start, offset + 1, total))
      else if offset >= c.n || total >= c.limit then
        s.(h := Clearing, rotate := (start + 1) % c.n, drains := s.drains + 1)
      else s.(h := Inner(start, offset, total, src))
    case Inner(start, offset, total, src) =>
      if total < c.limit then s.(h := SawPublished(start, offset, total, src, s.ring[src].published))
      else s.(h := Outer(start, offset + 1, total))
    case SawPublished(start, offset, total, src, pub) =>
      if s.ring[src].tail >= pub then s.(h := Outer(start, offset + 1, total))
      else
        var r := s.ring[src];
        s.(ring := s.ring[src := r.(tail := r.tail + 1)],
           h := Took(start, offset, total, src, r.slots[c.Slot(r.tail)]))
    case Took(start, offset, total, src, item) =>
      var r := s.ring[src];
      s.(ring := s.ring[src := r.(consumed := r.tail)], h := Dispatching(start, offset, total, src, item))
    case Dispatching(start, offset, total, src, item) =>
      s.(dispatched := s.dispatched[src := s.dispatched[src] + [item]], h := Inner(start, offset, total + 1, src))
    case Clearing => s.(flag := false, h := Recheck(0))
    case Recheck(src) =>
      if src >= c.n then s.(h := NotRunning)
      else if src == c.self then s.(h := Recheck(src + 1))
      else s.(h := RecheckSaw(src, s.ring[src].published))
    case RecheckSaw(src, pub) =>
      if src < c.n && pub != s.ring[src].consumed then s.(h := FoundWork) else s.(h := Recheck(src + 1))
    case FoundWork => s.(flag := true, h := if s.flag then NotRunning else WonFlagAgain)
    case WonFlagAgain => s.(queued := s.queued + 1, h := NotRunning)
  }

  /** The state after a list of actions, or None when one of them is not enabled. */
  function Exec(c: Config, s: State, acts: seq<Action>): Option<State>
    decreases |acts|
  {
    if acts == [] then Some(s)
    else
      var p := Exec(c, s, acts[..|acts| - 1]);
      var a := acts[|acts| - 1];
      if p.Some? && Shape(c, p.value) && Enabled(c, p.value, a) then Some(Apply(c, p.value, a)) else None
  }

  // ---- Invariant: the rings ----

  /** The source the drain loop is currently taking a message from, if it holds one. */
  ghost predicate Holding(c: Config, s: State, i: nat) {
    c.n > 0 && (s.h.Took? || s.h.Dispatching?) && i == s.h.src
  }

  ghost predicate ProducerOk(c: Config, s: State, i: nat)
    requires Shape(c, s) && i < c.n
  {
    var r := s.ring[i];
    && r.head == |s.posted[i]|
    && r.head <= r.consumed + c.Capacity()
    && r.published == (if s.pc[i].Wrote? then r.head - 1 else r.head)
    && (s.pc[i].SawConsumed? ==> s.pc[i].seen <= r.consumed)
    && (s.pc[i].Wrote? ==> r.head > 0)
    && (i == c.self ==> s.pc[i].Idle? && r.head == 0)
  }

  ghost predicate ConsumerOk(c: Config, s: State, i: nat)
    requires Shape(c, s) && i < c.n
  {
    var r := s.ring[i];
    && r.tail <= r.published
    && r.tail == r.consumed + (if s.h.Took? && Holding(c, s, i) then 1 else 0)
    && r.tail <= |s.posted[i]|
    && (Holding(c, s, i) ==> r.tail > 0 && s.h.item == s.posted[i][r.tail - 1])
    && s.dispatched[i] == s.posted[i][..r.tail - (if Holding(c, s, i) then 1 else 0)]
  }

  ghost predicate SlotsOk(c: Config, s: State, i: nat)
    requires Shape(c, s) && i < c.n
  {
    var r := s.ring[i];
    forall j: nat | r.consumed <= j < r.head && j < |s.posted[i]| :: r.slots[c.Slot(j)] == s.posted[i][j]
  }

  ghost predicate RingOk(c: Config, s: State, i: nat)
    requires Shape(c, s) && i < c.n
  {
    ProducerOk(c, s, i) && ConsumerOk(c, s, i) && SlotsOk(c, s, i)
  }

  ghost predicate LoopOk(c: Config, s: State)
    requires Shape(c, s)
  {
    && s.rotate < c.n
    && (s.h.Outer? || HasSource(s.h) ==> s.h.start < c.n)
    && (s.h.Outer? && s.h.offset == 0 ==> s.h.total == 0)
    && (HasSource(s.h) ==> s.h.offset < c.n && s.h.src != c.self && s.h.src == (s.h.start + s.h.offset) % c.n)
    && (s.h.SawPublished? ==> s.h.pub <= s.ring[s.h.src].published)
  }

  ghost predicate RingInv(c: Config, s: State) {
    && Shape(c, s)
    && (forall i: nat | i < c.n :: RingOk(c, s, i))
    && LoopOk(c, s)
  }

  // ---- Invariant: the flag ----

  predicate DrainPhase(h: HandlerPc) {
    h.Outer? || h.Inner? || h.SawPublished? || h.Took? || h.Dispatching? || h.Clearing?
  }

  function CountWon(pc: seq<ProducerPc>): nat {
    if pc == [] then 0 else CountWon(pc[..|pc| - 1]) + (if pc[|pc| - 1].WonFlag? then 1 else 0)
  }

  /** Handlers that are owed, queued, or running and yet to clear the flag. */
  function Outstanding(s: State): nat {
    CountWon(s.pc) + s.queued + (if DrainPhase(s.h) || s.h.WonFlagAgain? then 1 else 0)
  }

  ghost predicate FlagInv(s: State) {
    Outstanding(s) == if s.flag then 1 else 0
  }

  /** The running handler's re-check is still going to notice source i. */
  ghost predicate RecheckWillSee(c: Config, s: State, i: nat)
    requires Shape(c, s) && i < c.n
  {
    match s.h
    case Recheck(src) => src <= i
    case RecheckSaw(src, pub) => src < i || (src == i && pub != s.ring[i].consumed)
    case FoundWork => true
    case _ => false
  }

  /** Work of source i that nobody else is responsible for stays in sight of the handler. */
  ghost predicate Noticed(c: Config, s: State, i: nat)
    requires Shape(c, s) && i < c.n
  {
    s.ring[i].published > s.ring[i].consumed ==> s.flag || s.pc[i].Published? || RecheckWillSee(c, s, i)
  }

  ghost predicate NoLostWork(c: Config, s: State)
    requires Shape(c, s)
  {
    forall i: nat | i < c.n :: Noticed(c, s, i)
  }

  ghost predicate Inv(c: Config, s: State) {
    RingInv(c, s) && FlagInv(s) && NoLostWork(c, s)
  }

  // ---- Each step keeps the invariant ----

  lemma {:induction false} CountWonUpdate(pc: seq<ProducerPc>, i: nat, p: ProducerPc)
    requires i < |pc|
    ensures CountWon(pc[i := p]) ==
            CountWon(pc) - (if pc[i].WonFlag? then 1 else 0) + (if p.WonFlag? then 1 else 0)
  {
    var n := |pc| - 1;
    if i == n {
      assert pc[i := p][..n] == pc[..n];
    } else {
      CountWonUpdate(pc[..n], i, p);
      assert pc[i := p][..n] == pc[..n][i := p];
    }
  }

  lemma {:induction false} CountWonZero(pc: seq<ProducerPc>)
    requires forall i | 0 <= i < |pc| :: !pc[i].WonFlag?
    ensures CountWon(pc) == 0
  {
    if pc == [] {
    } else {
      CountWonZero(pc[..|pc| - 1]);
    }
  }

  lemma {:induction false} CountWonPositive(pc: seq<ProducerPc>, i: nat)
    requires i < |pc| && pc[i].WonFlag?
    ensures CountWon(pc) >= 1
  {
    if i == |pc| - 1 {
    } else {
      CountWonPositive(pc[..|pc| - 1], i);
    }
  }

  /** Writing the slot at `head` touches no unconsumed message: the ring is not full. */
  lemma WriteKeepsSlots(c: Config, s: State, src: nat)
    requires Shape(c, s) && src < c.n && s.pc[src].SawConsumed? && RingOk(c, s, src)
    requires s.ring[src].head - s.pc[src].seen < c.Capacity()
    ensures SlotsOk(c, ProducerStep(c, s, src), src)
  {
    var s' := ProducerStep(c, s, src);
    var r, r' := s.ring[src], s'.ring[src];
    forall j: nat | r'.consumed <= j < r'.head && j < |s'.posted[src]|
      ensures r'.slots[c.Slot(j)] == s'.posted[src][j]
    {
      SameMaskIndex(c.bits, j, r.head, r.consumed);
    }
  }

  lemma WriteKeepsCounters(c: Config, s: State, src: nat)
    requires Shape(c, s) && src < c.n && src != c.self && s.pc[src].SawConsumed?
    requires ProducerOk(c, s, src) && ConsumerOk(c, s, src)
    requires s.ring[src].head - s.pc[src].seen < c.Capacity()
    ensures ProducerOk(c, ProducerStep(c, s, src), src) && ConsumerOk(c, ProducerStep(c, s, src), src)
  {
  }

  lemma ProducerKeepsOwnRing(c: Config, s: State, src: nat)
    requires Shape(c, s) && src < c.n && src != c.self && !s.pc[src].Idle? && RingOk(c, s, src)
    ensures RingOk(c, ProducerStep(c, s, src), src)
    ensures ProducerStep(c, s, src).ring[src].published >= s.ring[src].published
  {
    if s.pc[src].SawConsumed? && s.ring[src].head - s.pc[src].seen < c.Capacity() {
      WriteKeepsSlots(c, s, src);
      WriteKeepsCounters(c, s, src);
    }
  }

  /** Nothing that concerns source i's ring differs between the two states. */
  ghost predicate SameRing(c: Config, s: State, s': State, i: nat)
    requires Shape(c, s) && Shape(c, s') && i < c.n
  {
    && s'.ring[i] == s.ring[i] && s'.pc[i] == s.pc[i]
    && s'.posted[i] == s.posted[i] && s'.dispatched[i] == s.dispatched[i]
    && Holding(c, s, i) == Holding(c, s', i)
    && (Holding(c, s, i) ==> s.h.Took? == s'.h.Took? && s.h.item == s'.h.item)
  }

  lemma OtherRingsKept(c: Config, s: State, s': State, i: nat)
    requires Shape(c, s) && Shape(c, s') && i < c.n && RingOk(c, s, i) && SameRing(c, s, s', i)
    ensures RingOk(c, s', i)
  {
  }

  lemma ProducerKeepsRing(c: Config, s: State, src: nat, i: nat)
    requires Shape(c, s) && src < c.n && src != c.self && !s.pc[src].Idle? && i < c.n && RingOk(c, s, i)
    ensures RingOk(c, ProducerStep(c, s, src), i)
    ensures ProducerStep(c, s, src).ring[i].published >= s.ring[i].published
  {
    if i == src {
      ProducerKeepsOwnRing(c, s, src);
    } else {
      OtherRingsKept(c, s, ProducerStep(c, s, src), i);
    }
  }

  lemma ProducerKeepsRings(c: Config, s: State, src: nat)
    requires RingInv(c, s) && src < c.n && src != c.self && !s.pc[src].Idle?
    ensures RingInv(c, ProducerStep(c, s, src))
  {
    var s' := ProducerStep(c, s, src);
    forall i: nat | i < c.n
      ensures RingOk(c, s', i)
    {
      ProducerKeepsRing(c, s, src, i);
    }
    if s.h.SawPublished? {
      ProducerKeepsRing(c, s, src, s.h.src);
    }
  }

  lemma TakeKeepsRing(c: Config, s: State)
    requires Shape(c, s) && s.h.SawPublished? && RingOk(c, s, s.h.src)
    requires s.h.pub <= s.ring[s.h.src].published
    ensures RingOk(c, HandlerStep(c, s), s.h.src)
  {
    var i := s.h.src;
    var r := s.ring[i];
    if r.tail < s.h.pub {
      assert r.slots[c.Slot(r.tail)] == s.posted[i][r.tail];
    }
  }

  lemma StoreKeepsRing(c: Config, s: State)
    requires Shape(c, s) && s.h.Took? && RingOk(c, s, s.h.src)
    ensures RingOk(c, HandlerStep(c, s), s.h.src)
  {
  }

  lemma DispatchKeepsRing(c: Config, s: State)
    requires Shape(c, s) && s.h.Dispatching? && RingOk(c, s, s.h.src)
    ensures RingOk(c, HandlerStep(c, s), s.h.src)
  {
  }

  lemma HandlerKeepsLoop(c: Config, s: State)
    requires Shape(c, s) && LoopOk(c, s) && !s.h.NotRunning?
    ensures Shape(c, HandlerStep(c, s)) && LoopOk(c, HandlerStep(c, s))
  {
    if s.h.Outer? {
      OuterKeepsLoop(c, s);
    } else {
      InnerKeepsLoop(c, s);
    }
  }

  lemma OuterKeepsLoop(c: Config, s: State)
    requires Shape(c, s) && LoopOk(c, s) && s.h.Outer?
    ensures Shape(c, HandlerStep(c, s)) && LoopOk(c, HandlerStep(c, s))
  {
  }

  lemma InnerKeepsLoop(c: Config, s: State)
    requires Shape(c, s) && LoopOk(c, s) && !s.h.NotRunning? && !s.h.Outer?
    ensures Shape(c, HandlerStep(c, s)) && LoopOk(c, HandlerStep(c, s))
  {
  }

  lemma HandlerElsewhere(c: Config, s: State, i: nat)
    requires Shape(c, s) && !s.h.NotRunning? && i < c.n && Shape(c, HandlerStep(c, s))
    requires s.h.SawPublished? || s.h.Took? || s.h.Dispatching? ==> i != s.h.src
    ensures SameRing(c, s, HandlerStep(c, s), i)
  {
  }

  lemma HandlerKeepsRing(c: Config, s: State, i: nat)
    requires Shape(c, s) && LoopOk(c, s) && !s.h.NotRunning? && i < c.n && RingOk(c, s, i)
    requires Shape(c, HandlerStep(c, s))
    ensures RingOk(c, HandlerStep(c, s), i)
  {
    if s.h.SawPublished? && i == s.h.src {
      TakeKeepsRing(c, s);
    } else if s.h.Took? && i == s.h.src {
      StoreKeepsRing(c, s);
    } else if s.h.Dispatching? && i == s.h.src {
      DispatchKeepsRing(c, s);
    } else {
      HandlerElsewhere(c, s, i);
      OtherRingsKept(c, s, HandlerStep(c, s), i);
    }
  }

  lemma HandlerKeepsRings(c: Config, s: State)
    requires RingInv(c, s) && !s.h.NotRunning?
    ensures RingInv(c, HandlerStep(c, s))
  {
    HandlerKeepsLoop(c, s);
    forall i: nat | i < c.n
      ensures RingOk(c, HandlerStep(c, s), i)
    {
      HandlerKeepsRing(c, s, i);
    }
  }

  lemma ProducerKeepsFlag(c: Config, s: State, src: nat)
    requires Inv(c, s) && src < c.n && src != c.self && !s.pc[src].Idle?
    ensures FlagInv(ProducerStep(c, s, src)) && NoLostWork(c, ProducerStep(c, s, src))
  {
    var s' := ProducerStep(c, s, src);
    CountWonUpdate(s.pc, src, s'.pc[src]);
    if s.pc[src].WonFlag? {
      CountWonPositive(s.pc, src);
    }
    assert RingOk(c, s, src);
    ProducerKeepsRings(c, s, src);
    forall i: nat | i < c.n ensures Noticed(c, s', i) {
      assert Noticed(c, s, i);
      ProducerStillNoticed(c, s, src, i);
    }
  }

  lemma ProducerStillNoticed(c: Config, s: State, src: nat, i: nat)
    requires Shape(c, s) && src < c.n && src != c.self && !s.pc[src].Idle? && RingOk(c, s, src) && i < c.n
    requires Noticed(c, s, i) && Shape(c, ProducerStep(c, s, src))
    ensures Noticed(c, ProducerStep(c, s, src), i)
  {
  }

  lemma HandlerKeepsOutstanding(c: Config, s: State)
    requires Shape(c, s) && FlagInv(s) && !s.h.NotRunning?
    ensures FlagInv(HandlerStep(c, s))
  {
  }

  lemma HandlerStillNotices(c: Config, s: State, i: nat)
    requires Shape(c, s) && LoopOk(c, s) && FlagInv(s) && !s.h.NotRunning? && i < c.n && RingOk(c, s, i)
    requires Noticed(c, s, i) && Shape(c, HandlerStep(c, s))
    ensures Noticed(c, HandlerStep(c, s), i)
  {
  }

  lemma HandlerKeepsFlag(c: Config, s: State)
    requires Inv(c, s) && !s.h.NotRunning?
    ensures FlagInv(HandlerStep(c, s)) && NoLostWork(c, HandlerStep(c, s))
  {
    HandlerKeepsOutstanding(c, s);
    HandlerKeepsLoop(c, s);
    forall i: nat | i < c.n ensures Noticed(c, HandlerStep(c, s), i) {
      assert RingOk(c, s, i) && Noticed(c, s, i);
      HandlerStillNotices(c, s, i);
    }
  }

  lemma PostKeepsInv(c: Config, s: State, src: nat, msg: Message)
    requires Inv(c, s) && Enabled(c, s, Post(src, msg))
    ensures Inv(c, Apply(c, s, Post(src, msg)))
  {
    var s' := Apply(c, s, Post(src, msg));
    CountWonUpdate(s.pc, src, s'.pc[src]);
    forall i: nat | i < c.n ensures RingOk(c, s', i) && Noticed(c, s', i) {
      assert RingOk(c, s, i) && Noticed(c, s, i);
      PostKeepsRing(c, s, src, msg, i);
    }
  }

  lemma PostKeepsRing(c: Config, s: State, src: nat, msg: Message, i: nat)
    requires Shape(c, s) && Enabled(c, s, Post(src, msg)) && i < c.n && RingOk(c, s, i) && Noticed(c, s, i)
    ensures var s' := Apply(c, s, Post(src, msg)); Shape(c, s') && RingOk(c, s', i) && Noticed(c, s', i)
  {
  }

  lemma StartKeepsInv(c: Config, s: State)
    requires Inv(c, s) && Enabled(c, s, StartHandler)
    ensures Inv(c, Apply(c, s, StartHandler))
  {
    var s' := Apply(c, s, StartHandler);
    forall i: nat | i < c.n ensures RingOk(c, s', i) && Noticed(c, s', i) {
      assert Noticed(c, s, i);
      OtherRingsKept(c, s, s', i);
    }
  }

  lemma StepKeepsInv(c: Config, s: State, a: Action)
    requires Inv(c, s) && Enabled(c, s, a)
    ensures Inv(c, Apply(c, s, a))
  {
    match a
    case Post(src, msg) => PostKeepsInv(c, s, src, msg);
    case Producer(src) =>
      ProducerKeepsRings(c, s, src);
      ProducerKeepsFlag(c, s, src);
    case StartHandler => StartKeepsInv(c, s);
    case Handler =>
      HandlerKeepsRings(c, s);
      HandlerKeepsFlag(c, s);
  }

  lemma {:induction false} RunsKeepInv(c: Config, s0: State, acts: seq<Action>)
    requires Inv(c, s0)
    requires Exec(c, s0, acts).Some?
    ensures Inv(c, Exec(c, s0, acts).value)
    decreases |acts|
  {
    if acts == [] {
    } else {
      RunsKeepInv(c, s0, acts[..|acts| - 1]);
      StepKeepsInv(c, Exec(c, s0, acts[..|acts| - 1]).value, acts[|acts| - 1]);
    }
  }

  lemma InitInv(c: Config, s0: State)
    requires ValidConfig(c) && Init(c, s0)
    ensures Inv(c, s0)
  {
    CountWonZero(s0.pc);
  }

  // ---- Main results ----

  ghost predicate Reachable(c: Config, s0: State, acts: seq<Action>) {
    ValidConfig(c) && Init(c, s0) && Exec(c, s0, acts).Some?
  }

  /** A set flag means exactly one outstanding drain, a clear flag none. */
  lemma OneDrainPerFlag(c: Config, s0: State, acts: seq<Action>)
    requires Reachable(c, s0, acts)
    ensures var s := Exec(c, s0, acts).value;
            Outstanding(s) == (if s.flag then 1 else 0)
  {
    InitInv(c, s0);
    RunsKeepInv(c, s0, acts);
  }

  /** Every source's messages are dispatched at most once, in the order it posted them. */
  lemma DispatchedIsPrefix(c: Config, s0: State, acts: seq<Action>, i: nat)
    requires Reachable(c, s0, acts) && i < c.n
    ensures var s := Exec(c, s0, acts).value;
            i < |s.dispatched| && i < |s.posted| && s.dispatched[i] <= s.posted[i]
  {
    InitInv(c, s0);
    RunsKeepInv(c, s0, acts);
    assert RingOk(c, Exec(c, s0, acts).value, i);
  }

  /** No lost drain: when no handler is queued, owed or running, everything published was dispatched. */
  lemma NoLostDrain(c: Config, s0: State, acts: seq<Action>, i: nat)
    requires Reachable(c, s0, acts) && i < c.n
    requires var s := Exec(c, s0, acts).value;
             && s.h.NotRunning? && s.queued == 0
             && forall k | 0 <= k < |s.pc| :: !s.pc[k].Published? && !s.pc[k].WonFlag?
    ensures var s := Exec(c, s0, acts).value;
            && i < |s.ring| && i < |s.pc| && i < |s.dispatched| && i < |s.posted|
            && s.ring[i].published == s.ring[i].consumed <= |s.posted[i]|
            && s.dispatched[i] == s.posted[i][..s.ring[i].published]
            && (s.pc[i].Idle? ==> s.dispatched[i] == s.posted[i])
  {
    InitInv(c, s0);
    RunsKeepInv(c, s0, acts);
    var s := Exec(c, s0, acts).value;
    assert RingOk(c, s, i) && Noticed(c, s, i);
    CountWonZero(s.pc);
  }

  // ---- Bounded fairness ----

  function Rounds(depth: nat, limit: nat): nat
    requires limit >= 1
  {
    depth / limit + 1
  }

  /** Drain calls until the call that starts its round at source i. */
  function Distance(c: Config, start: nat, i: nat): nat
    requires start < c.n && i < c.n
  {
    if i >= start then i - start else i + c.n - start
  }

  /** Which part of the round over the sources the current drain call is in, as seen from source i. */
  datatype Stage = Before(start: nat) | Serving(total: nat) | Passed

  ghost function StageOf(s: State, i: nat): Stage {
    if s.h.Outer? || HasSource(s.h) then
      if s.h.start != i then Before(s.h.start) else if s.h.offset == 0 then Serving(s.h.total) else Passed
    else Before(s.rotate)
  }

  /** Drain calls that complete before the message at depth d is dispatched, at most. */
  ghost function Bound(c: Config, st: Stage, i: nat, d: nat): int
    requires c.limit >= 1 && i < c.n && (st.Before? ==> st.start < c.n)
  {
    match st
    case Before(start) => Distance(c, start, i) + 1 + (Rounds(d, c.limit) - 1) * c.n
    case Serving(total) => 1 + (Rounds(d + total, c.limit) - 1) * c.n
    case Passed => 1 + Rounds(d, c.limit) * c.n
  }

  ghost function Wait(c: Config, s: State, i: nat, m: nat): int
    requires Shape(c, s) && LoopOk(c, s) && c.limit >= 1 && i < c.n && |s.dispatched[i]| <= m
  {
    Bound(c, StageOf(s, i), i, m - |s.dispatched[i]|)
  }

  lemma RoundsMono(x: nat, y: nat, limit: nat)
    requires limit >= 1 && x <= y
    ensures Rounds(x, limit) <= Rounds(y, limit)
  {
    DivModIdentity(x, limit);
    DivModIdentity(y, limit);
    if x / limit > y / limit {
      MulMono(y / limit + 1, x / limit, limit);
    }
  }

  lemma RoundsOfFullBatch(x: nat, y: nat, limit: nat)
    requires limit >= 1 && x + limit <= y
    ensures Rounds(x, limit) + 1 <= Rounds(y, limit)
  {
    DivModIdentity(x, limit);
    DivModUnique(x + limit, limit, x / limit + 1, x % limit);
    RoundsMono(x + limit, y, limit);
  }

  /** Message m of source i is published, and a ring read in progress has seen it. */
  ghost predicate Awaited(c: Config, s: State, i: nat, m: nat)
    requires Shape(c, s)
  {
    && i < c.n && i != c.self && m < s.ring[i].published
    && (s.h.SawPublished? && s.h.src == i ==> m < s.h.pub)
  }

  lemma ModNext(x: nat, n: nat)
    requires x < n
    ensures x % n == x
    ensures (x + 1) % n == if x + 1 == n then 0 else x + 1
  {
  }

  lemma FinishedBound(c: Config, start: nat, i: nat, d: nat)
    requires c.limit >= 1 && i < c.n && start < c.n
    ensures (start + 1) % c.n < c.n
    ensures start != i ==> 1 + Bound(c, Before((start + 1) % c.n), i, d) == Bound(c, Before(start), i, d)
    ensures start == i ==> 1 + Bound(c, Before((start + 1) % c.n), i, d) == Bound(c, Passed, i, d)
  {
    ModNext(start, c.n);
    var r := Rounds(d, c.limit);
    assert r * c.n == (r - 1) * c.n + c.n;
  }

  lemma FullBatchBound(c: Config, total: nat, i: nat, d: nat)
    requires total >= c.limit >= 1 && i < c.n
    ensures Bound(c, Passed, i, d) <= Bound(c, Serving(total), i, d)
  {
    RoundsOfFullBatch(d, d + total, c.limit);
    MulMono(Rounds(d, c.limit), Rounds(d + total, c.limit) - 1, c.n);
  }

  lemma ShallowerBound(c: Config, st: Stage, i: nat, d: nat, d': nat)
    requires c.limit >= 1 && i < c.n && (st.Before? ==> st.start < c.n) && d' <= d
    ensures Bound(c, st, i, d') <= Bound(c, st, i, d)
  {
    match st
    case Before(start) =>
      RoundsMono(d', d, c.limit);
      MulMono(Rounds(d', c.limit) - 1, Rounds(d, c.limit) - 1, c.n);
    case Serving(total) =>
      RoundsMono(d' + total, d + total, c.limit);
      MulMono(Rounds(d' + total, c.limit) - 1, Rounds(d + total, c.limit) - 1, c.n);
    case Passed =>
      RoundsMono(d', d, c.limit);
      MulMono(Rounds(d', c.limit), Rounds(d, c.limit), c.n);
  }

  lemma ServedBound(c: Config, total: nat, i: nat, d: nat)
    requires c.limit >= 1 && i < c.n && d >= 1
    ensures Bound(c, Serving(total + 1), i, d - 1) == Bound(c, Serving(total), i, d)
  {
    assert d - 1 + (total + 1) == d + total;
  }

  lemma BeforeIsServing(c: Config, i: nat, d: nat)
    requires c.limit >= 1 && i < c.n
    ensures Bound(c, Before(i), i, d) == Bound(c, Serving(0), i, d)
  {
  }

  /** Completed calls plus the bound never grow while the message waits. */
  lemma WaitDoesNotGrow(c: Config, s: State, a: Action, i: nat, m: nat)
    requires Shape(c, s) && LoopOk(c, s) && Enabled(c, s, a) && c.limit >= 1
    requires Awaited(c, s, i, m) && RingOk(c, s, i)
    requires Shape(c, Apply(c, s, a)) && LoopOk(c, Apply(c, s, a))
    requires |Apply(c, s, a).dispatched[i]| <= m
    ensures |s.dispatched[i]| <= m
    ensures Apply(c, s, a).drains + Wait(c, Apply(c, s, a), i, m) <= s.drains + Wait(c, s, i, m)
  {
    var s' := Apply(c, s, a);
    if a.Handler? {
      HandlerWait(c, s, i, m);
    } else if a.StartHandler? && s.rotate == i {
      BeforeIsServing(c, i, m - |s.dispatched[i]|);
    }
  }

  /** How one handler step moves source i through the round. */
  ghost predicate Moved(c: Config, s: State, s': State, i: nat)
    requires Shape(c, s) && i < c.n && i < |s'.dispatched|
  {
    var st, st' := StageOf(s, i), StageOf(s', i);
    && |s.dispatched[i]| <= |s'.dispatched[i]|
    && (if s'.h.Clearing? then
          && s.h.Outer? && s'.drains == s.drains + 1 && s'.dispatched == s.dispatched
          && st == (if s.h.start == i then Passed else Before(s.h.start))
          && st' == Before((s.h.start + 1) % c.n)
        else
          && s'.drains == s.drains
          && (|| st' == st
              || (st.Serving? && st'.Passed? && st.total >= c.limit && s'.dispatched == s.dispatched)
              || (st.Serving? && st' == Serving(st.total + 1) && |s'.dispatched[i]| == |s.dispatched[i]| + 1)))
  }

  lemma OuterMoves(c: Config, s: State, i: nat)
    requires Shape(c, s) && LoopOk(c, s) && s.h.Outer? && c.limit >= 1 && i < c.n && i != c.self
    ensures Moved(c, s, HandlerStep(c, s), i)
  {
    ModNext(s.h.start, c.n);
  }

  lemma SourceMoves(c: Config, s: State, i: nat, m: nat)
    requires Shape(c, s) && LoopOk(c, s) && HasSource(s.h) && c.limit >= 1
    requires Awaited(c, s, i, m) && RingOk(c, s, i)
    requires |HandlerStep(c, s).dispatched[i]| <= m
    ensures Moved(c, s, HandlerStep(c, s), i)
  {
    ModNext(s.h.start, c.n);
  }

  lemma StageStep(c: Config, s: State, i: nat, m: nat)
    requires Shape(c, s) && LoopOk(c, s) && !s.h.NotRunning? && c.limit >= 1
    requires Awaited(c, s, i, m) && RingOk(c, s, i)
    requires |HandlerStep(c, s).dispatched[i]| <= m
    ensures Moved(c, s, HandlerStep(c, s), i)
  {
    if s.h.Outer? {
      OuterMoves(c, s, i);
    } else if HasSource(s.h) {
      SourceMoves(c, s, i, m);
    }
  }

  lemma HandlerWait(c: Config, s: State, i: nat, m: nat)
    requires Shape(c, s) && LoopOk(c, s) && !s.h.NotRunning? && c.limit >= 1
    requires Awaited(c, s, i, m) && RingOk(c, s, i)
    requires Shape(c, HandlerStep(c, s)) && LoopOk(c, HandlerStep(c, s))
    requires |HandlerStep(c, s).dispatched[i]| <= m
    ensures |s.dispatched[i]| <= m
    ensures HandlerStep(c, s).drains + Wait(c, HandlerStep(c, s), i, m) <= s.drains + Wait(c, s, i, m)
  {
    StageStep(c, s, i, m);
    var s' := HandlerStep(c, s);
    var d, d' := m - |s.dispatched[i]|, m - |s'.dispatched[i]|;
    if s'.h.Clearing? {
      FinishedBound(c, s.h.start, i, d);
    } else {
      StageBound(c, StageOf(s, i), StageOf(s', i), i, d, d');
    }
  }

  /** Within one drain call the bound does not grow, whichever way source i moves. */
  lemma StageBound(c: Config, st: Stage, st': Stage, i: nat, d: nat, d': nat)
    requires c.limit >= 1 && i < c.n && d' <= d && (st.Before? ==> st.start < c.n)
    requires || st' == st
             || (st.Serving? && st'.Passed? && st.total >= c.limit && d' == d)
             || (st.Serving? && st' == Serving(st.total + 1) && d == d' + 1)
    ensures Bound(c, st', i, d') <= Bound(c, st, i, d)
  {
    if st' == st {
      ShallowerBound(c, st, i, d, d');
    } else if st'.Passed? {
      FullBatchBound(c, st.total, i, d);
    } else {
      ServedBound(c, st.total, i, d);
    }
  }

  lemma AwaitedStays(c: Config, s: State, a: Action, i: nat, m: nat)
    requires Shape(c, s) && Enabled(c, s, a) && Awaited(c, s, i, m) && RingOk(c, s, i)
    requires Shape(c, Apply(c, s, a))
    ensures Awaited(c, Apply(c, s, a), i, m)
    ensures s.posted[i] <= Apply(c, s, a).posted[i]
  {
    if a.Producer? {
      ProducerKeepsRing(c, s, a.src, i);
    } else if a.Handler? {
      HandlerLeavesPublished(c, s, i);
    }
  }

  lemma HandlerLeavesPublished(c: Config, s: State, i: nat)
    requires Shape(c, s) && !s.h.NotRunning? && i < c.n
    ensures var s' := HandlerStep(c, s);
            && i < |s'.ring| && s'.posted == s.posted && s'.pc == s.pc
            && s'.ring[i].published == s.ring[i].published && s'.ring[i].head == s.ring[i].head
            && (s'.h.SawPublished? && !s.h.SawPublished? && s'.h.src == i ==> s'.h.pub == s.ring[i].published)
            && (s.h.SawPublished? ==> !s'.h.SawPublished?)
  {
  }

  lemma {:induction false} WaitOverRun(c: Config, s1: State, acts: seq<Action>, i: nat, m: nat)
    requires Inv(c, s1) && c.limit >= 1 && Exec(c, s1, acts).Some? && Awaited(c, s1, i, m)
    ensures var s2 := Exec(c, s1, acts).value;
            && Inv(c, s2) && Awaited(c, s2, i, m) && s1.posted[i] <= s2.posted[i]
            && (|s2.dispatched[i]| <= m ==>
                  && |s1.dispatched[i]| <= m
                  && s2.drains + Wait(c, s2, i, m) <= s1.drains + Wait(c, s1, i, m))
    decreases |acts|
  {
    if acts == [] {
    } else {
      var p := Exec(c, s1, acts[..|acts| - 1]).value;
      var a := acts[|acts| - 1];
      WaitOverRun(c, s1, acts[..|acts| - 1], i, m);
      StepKeepsInv(c, p, a);
      assert RingOk(c, p, i);
      AwaitedStays(c, p, a, i, m);
      if |Apply(c, p, a).dispatched[i]| <= m {
        WaitDoesNotGrow(c, p, a, i, m);
      }
    }
  }

  /**
   Bounded fairness: a message published at depth d of its ring is dispatched by the time
   n * (d / limit + 1) drain calls have completed, whatever the other cores post meanwhile.
   */
  lemma BoundedFairness(
    c: Config, s0: State, before: seq<Action>, s1: State, after: seq<Action>, s2: State, i: nat, m: nat)
    requires Reachable(c, s0, before) && Exec(c, s0, before) == Some(s1) && Exec(c, s1, after) == Some(s2)
    requires c.limit >= 1 && i < c.n && i != c.self && !DrainPhase(s1.h)
    requires i < |s1.ring| && i < |s1.dispatched| && |s1.dispatched[i]| <= m < s1.ring[i].published
    requires s2.drains >= s1.drains + Rounds(m - |s1.dispatched[i]|, c.limit) * c.n
    ensures i < |s2.dispatched| && m < |s2.dispatched[i]|
    ensures i < |s1.posted| && m < |s1.posted[i]| && s2.dispatched[i][m] == s1.posted[i][m]
  {
    WaitFromBoundary(c, s0, before, s1, after, s2, i, m);
    CallsSuffice(c, s1, s2, i, m);
  }

  lemma WaitFromBoundary(
    c: Config, s0: State, before: seq<Action>, s1: State, after: seq<Action>, s2: State, i: nat, m: nat)
    requires Reachable(c, s0, before) && Exec(c, s0, before) == Some(s1) && Exec(c, s1, after) == Some(s2)
    requires c.limit >= 1 && i < c.n && i != c.self && !DrainPhase(s1.h)
    requires i < |s1.ring| && i < |s1.dispatched| && |s1.dispatched[i]| <= m < s1.ring[i].published
    ensures Shape(c, s1) && LoopOk(c, s1) && Shape(c, s2) && LoopOk(c, s2)
    ensures RingOk(c, s1, i) && RingOk(c, s2, i) && s1.posted[i] <= s2.posted[i]
    ensures |s2.dispatched[i]| <= m ==> s2.drains + Wait(c, s2, i, m) <= s1.drains + Wait(c, s1, i, m)
  {
    InitInv(c, s0);
    RunsKeepInv(c, s0, before);
    assert RingOk(c, s1, i);
    WaitOverRun(c, s1, after, i, m);
    assert RingOk(c, s2, i);
  }

  /** After that many calls the message cannot still be waiting. */
  lemma CallsSuffice(c: Config, s1: State, s2: State, i: nat, m: nat)
    requires Shape(c, s1) && LoopOk(c, s1) && Shape(c, s2) && LoopOk(c, s2) && c.limit >= 1 && i < c.n
    requires RingOk(c, s1, i) && RingOk(c, s2, i)
    requires !DrainPhase(s1.h) && s1.posted[i] <= s2.posted[i]
    requires |s1.dispatched[i]| <= m < s1.ring[i].published
    requires |s2.dispatched[i]| <= m ==> s2.drains + Wait(c, s2, i, m) <= s1.drains + Wait(c, s1, i, m)
    requires s2.drains >= s1.drains + Rounds(m - |s1.dispatched[i]|, c.limit) * c.n
    ensures m < |s2.dispatched[i]| && m < |s1.posted[i]| && s2.dispatched[i][m] == s1.posted[i][m]
  {
    if |s2.dispatched[i]| <= m {
      BoundAtBoundary(c, s1.rotate, i, m - |s1.dispatched[i]|);
      BoundIsPositive(c, StageOf(s2, i), i, m - |s2.dispatched[i]|);
    }
  }

  lemma BoundAtBoundary(c: Config, start: nat, i: nat, d: nat)
    requires c.limit >= 1 && i < c.n && start < c.n
    ensures Bound(c, Before(start), i, d) <= Rounds(d, c.limit) * c.n
  {
    var r := Rounds(d, c.limit);
    assert r * c.n == (r - 1) * c.n + c.n;
  }

  lemma BoundIsPositive(c: Config, st: Stage, i: nat, d: nat)
    requires c.limit >= 1 && i < c.n && (st.Before? ==> st.start < c.n)
    ensures Bound(c, st, i, d) >= 1
  {
    var r := if st.Serving? then Rounds(d + st.total, c.limit) else Rounds(d, c.limit);
    MulMono(0, r - 1, c.n);
    MulMono(0, r, c.n);
  }

  // ---- Fairness from any moment ----

  /** How many messages the running call has taken, as far as its batch limit is concerned. */
  predicate TotalOk(c: Config, h: HandlerPc) {
    && (h.Outer? || h.Inner? ==> h.total <= c.limit)
    && (h.SawPublished? || h.Took? || h.Dispatching? ==> h.total < c.limit)
  }

  lemma {:induction false} RunsKeepTotal(c: Config, s0: State, acts: seq<Action>)
    requires Exec(c, s0, acts).Some? && TotalOk(c, s0.h)
    ensures TotalOk(c, Exec(c, s0, acts).value.h)
    decreases |acts|
  {
    if acts == [] {
    } else {
      RunsKeepTotal(c, s0, acts[..|acts| - 1]);
    }
  }

  /** The wait is never more than one call above the bound between calls. */
  lemma WaitAtMost(c: Config, st: Stage, i: nat, d: nat)
    requires c.limit >= 1 && i < c.n && (st.Before? ==> st.start < c.n) && (st.Serving? ==> st.total <= c.limit)
    ensures Bound(c, st, i, d) <= 1 + Rounds(d, c.limit) * c.n
  {
    var r := Rounds(d, c.limit);
    match st
    case Before(start) => BoundAtBoundary(c, start, i, d);
    case Serving(total) =>
      RoundsMono(d + total, d + c.limit, c.limit);
      OneBatchMore(d, c.limit);
      MulMono(Rounds(d + total, c.limit) - 1, r, c.n);
    case Passed =>
  }

  lemma OneBatchMore(d: nat, limit: nat)
    requires limit >= 1
    ensures Rounds(d + limit, limit) == Rounds(d, limit) + 1
  {
    DivModIdentity(d, limit);
    DivModUnique(d + limit, limit, d / limit + 1, d % limit);
  }

  /** The wait of a message that a ring read in progress may have missed: that call counts as passed. */
  ghost function WaitAnywhere(c: Config, s: State, i: nat, m: nat): int
    requires Shape(c, s) && LoopOk(c, s) && c.limit >= 1 && i < c.n && |s.dispatched[i]| <= m
  {
    if Awaited(c, s, i, m) then Wait(c, s, i, m) else 1 + Rounds(m - |s.dispatched[i]|, c.limit) * c.n
  }

  /** A read that missed the message leaves everything else as it was. */
  lemma StaleReadEnds(c: Config, s: State, i: nat, m: nat)
    requires Shape(c, s) && s.h.SawPublished? && s.h.src == i < c.n && i != c.self && m < s.ring[i].published
    requires Shape(c, HandlerStep(c, s))
    ensures var t := HandlerStep(c, s);
            Awaited(c, t, i, m) && t.drains == s.drains && t.dispatched == s.dispatched && t.posted == s.posted
  {
  }

  lemma WaitAnywhereStep(c: Config, s: State, a: Action, i: nat, m: nat)
    requires Inv(c, s) && Enabled(c, s, a) && Inv(c, Apply(c, s, a)) && TotalOk(c, s.h) && TotalOk(c, Apply(c, s, a).h)
    requires c.limit >= 1 && i < c.n && i != c.self && m < s.ring[i].published
    ensures var t := Apply(c, s, a);
            && m < t.ring[i].published && s.posted[i] <= t.posted[i]
            && (|t.dispatched[i]| <= m ==>
                  && |s.dispatched[i]| <= m
                  && t.drains + WaitAnywhere(c, t, i, m) <= s.drains + WaitAnywhere(c, s, i, m))
  {
    var t := Apply(c, s, a);
    assert RingOk(c, s, i) && RingOk(c, t, i);
    if Awaited(c, s, i, m) {
      AwaitedStays(c, s, a, i, m);
      if |t.dispatched[i]| <= m {
        WaitDoesNotGrow(c, s, a, i, m);
      }
    } else if a.Handler? {
      StaleReadEnds(c, s, i, m);
      if |t.dispatched[i]| <= m {
        StageTotal(c, t, i);
        WaitAtMost(c, StageOf(t, i), i, m - |t.dispatched[i]|);
      }
    } else {
      OthersKeepStale(c, s, a, i);
    }
  }

  lemma StageTotal(c: Config, s: State, i: nat)
    requires Shape(c, s) && LoopOk(c, s) && TotalOk(c, s.h)
    ensures var st := StageOf(s, i); (st.Serving? ==> st.total <= c.limit) && (st.Before? ==> st.start < c.n)
  {
  }

  lemma OthersKeepStale(c: Config, s: State, a: Action, i: nat)
    requires Shape(c, s) && Enabled(c, s, a) && !a.Handler? && s.h.SawPublished? && i < c.n
    requires Shape(c, Apply(c, s, a)) && RingOk(c, s, i)
    ensures var t := Apply(c, s, a);
            && t.h == s.h && t.drains == s.drains && t.dispatched == s.dispatched
            && s.ring[i].published <= t.ring[i].published && s.posted[i] <= t.posted[i]
  {
    if a.Producer? {
      ProducerKeepsRing(c, s, a.src, i);
    }
  }

  lemma {:induction false} WaitAnywhereOverRun(c: Config, s1: State, acts: seq<Action>, s2: State, i: nat, m: nat)
    requires Inv(c, s1) && TotalOk(c, s1.h) && Exec(c, s1, acts) == Some(s2)
    requires c.limit >= 1 && i < c.n && i != c.self && m < s1.ring[i].published
    ensures Inv(c, s2) && TotalOk(c, s2.h) && m < s2.ring[i].published && s1.posted[i] <= s2.posted[i]
    ensures |s2.dispatched[i]| <= m ==>
              && |s1.dispatched[i]| <= m
              && s2.drains + WaitAnywhere(c, s2, i, m) <= s1.drains + WaitAnywhere(c, s1, i, m)
    decreases |acts|
  {
    if acts == [] {
    } else {
      var p, a := Exec(c, s1, acts[..|acts| - 1]).value, acts[|acts| - 1];
      WaitAnywhereOverRun(c, s1, acts[..|acts| - 1], p, i, m);
      StepKeepsInv(c, p, a);
      RunsKeepTotal(c, s1, acts);
      WaitAnywhereStep(c, p, a, i, m);
    }
  }

  /**
   Bounded fairness from any moment, the middle of a drain call included: at most one completed call more than
   between calls, whether or not a read in progress has missed the message.
   */
  lemma BoundedFairnessAnywhere(
    c: Config, s0: State, before: seq<Action>, s1: State, after: seq<Action>, s2: State, i: nat, m: nat)
    requires Reachable(c, s0, before) && Exec(c, s0, before) == Some(s1) && Exec(c, s1, after) == Some(s2)
    requires c.limit >= 1 && i < c.n && i != c.self
    requires i < |s1.ring| && i < |s1.dispatched| && |s1.dispatched[i]| <= m < s1.ring[i].published
    requires s2.drains >= s1.drains + Rounds(m - |s1.dispatched[i]|, c.limit) * c.n + 1
    ensures i < |s2.dispatched| && m < |s2.dispatched[i]|
    ensures i < |s1.posted| && m < |s1.posted[i]| && s2.dispatched[i][m] == s1.posted[i][m]
  {
    AnywhereFacts(c, s0, before, s1, after, s2, i, m);
    CallsSufficeAnywhere(c, s1, s2, i, m);
  }

  lemma AnywhereFacts(
    c: Config, s0: State, before: seq<Action>, s1: State, after: seq<Action>, s2: State, i: nat, m: nat)
    requires Reachable(c, s0, before) && Exec(c, s0, before) == Some(s1) && Exec(c, s1, after) == Some(s2)
    requires c.limit >= 1 && i < c.n && i != c.self && i < |s1.ring| && m < s1.ring[i].published
    ensures Shape(c, s1) && LoopOk(c, s1) && Shape(c, s2) && LoopOk(c, s2)
    ensures RingOk(c, s1, i) && RingOk(c, s2, i) && s1.posted[i] <= s2.posted[i]
    ensures TotalOk(c, s1.h) && TotalOk(c, s2.h)
    ensures |s2.dispatched[i]| <= m ==>
              && |s1.dispatched[i]| <= m
              && s2.drains + WaitAnywhere(c, s2, i, m) <= s1.drains + WaitAnywhere(c, s1, i, m)
  {
    InitInv(c, s0);
    RunsKeepInv(c, s0, before);
    RunsKeepTotal(c, s0, before);
    WaitAnywhereOverRun(c, s1, after, s2, i, m);
    assert RingOk(c, s1, i) && RingOk(c, s2, i);
  }

  lemma CallsSufficeAnywhere(c: Config, s1: State, s2: State, i: nat, m: nat)
    requires Shape(c, s1) && LoopOk(c, s1) && Shape(c, s2) && LoopOk(c, s2) && c.limit >= 1 && i < c.n
    requires RingOk(c, s1, i) && RingOk(c, s2, i) && s1.posted[i] <= s2.posted[i]
    requires TotalOk(c, s1.h) && TotalOk(c, s2.h) && |s1.dispatched[i]| <= m < s1.ring[i].published
    requires |s2.dispatched[i]| <= m ==>
               s2.drains + WaitAnywhere(c, s2, i, m) <= s1.drains + WaitAnywhere(c, s1, i, m)
    requires s2.drains >= s1.drains + Rounds(m - |s1.dispatched[i]|, c.limit) * c.n + 1
    ensures m < |s2.dispatched[i]| && m < |s1.posted[i]| && s2.dispatched[i][m] == s1.posted[i][m]
  {
    if |s2.dispatched[i]| <= m {
      StageTotal(c, s1, i);
      WaitAtMost(c, StageOf(s1, i), i, m - |s1.dispatched[i]|);
      StageTotal(c, s2, i);
      BoundIsPositive(c, StageOf(s2, i), i, m - |s2.dispatched[i]|);
      MulMono(0, Rounds(m - |s2.dispatched[i]|, c.limit), c.n);
    }
  }

  // ---- Backpressure ----

  ghost predicate NotBy(src: nat, acts: seq<Action>) {
    forall k | 0 <= k < |acts| :: acts[k] != Producer(src) && !(acts[k].Post? && acts[k].src == src)
  }

  lemma OtherStepLeavesProducer(c: Config, s: State, a: Action, src: nat)
    requires Shape(c, s) && Enabled(c, s, a) && src < c.n
    requires a != Producer(src) && !(a.Post? && a.src == src)
    ensures var t := Apply(c, s, a);
            && src < |t.pc| && src < |t.ring| && src < |t.posted|
            && t.pc[src] == s.pc[src] && t.ring[src].head == s.ring[src].head && t.posted[src] == s.posted[src]
  {
    if a.Handler? {
      HandlerLeavesPublished(c, s, src);
    }
  }

  lemma {:induction false} OthersLeaveProducer(c: Config, s: State, acts: seq<Action>, src: nat)
    requires Shape(c, s) && Exec(c, s, acts).Some? && NotBy(src, acts) && src < c.n
    ensures var t := Exec(c, s, acts).value;
            && src < |t.pc| && src < |t.ring| && src < |t.posted|
            && t.pc[src] == s.pc[src] && t.ring[src].head == s.ring[src].head && t.posted[src] == s.posted[src]
    decreases |acts|
  {
    if acts == [] {
    } else {
      OthersLeaveProducer(c, s, acts[..|acts| - 1], src);
      OtherStepLeavesProducer(c, Exec(c, s, acts[..|acts| - 1]).value, acts[|acts| - 1], src);
    }
  }

  /** A post is refused exactly when its ring was full at the moment it loaded `consumed`. */
  lemma RefusedExactlyWhenFull(c: Config, s0: State, before: seq<Action>, src: nat, msg: Message, mid: seq<Action>)
    requires Reachable(c, s0, before)
    requires var s1 := Exec(c, s0, before).value;
             && Shape(c, s1) && Enabled(c, s1, Post(src, msg)) && NotBy(src, mid)
             && Exec(c, Apply(c, s1, Post(src, msg)), mid + [Producer(src)]).Some?
    ensures var s1 := Exec(c, s0, before).value;
            var s3 := Exec(c, Apply(c, s1, Post(src, msg)), mid + [Producer(src)]).value;
            && src < |s1.ring| && src < |s1.posted| && src < |s3.posted|
            && s3.posted[src] ==
               (if s1.ring[src].head - s1.ring[src].consumed == c.Capacity() then s1.posted[src]
                else s1.posted[src] + [msg])
  {
    InitInv(c, s0);
    RunsKeepInv(c, s0, before);
    var s1 := Exec(c, s0, before).value;
    assert RingOk(c, s1, src);
    var s2 := Apply(c, s1, Post(src, msg));
    assert (mid + [Producer(src)])[..|mid|] == mid;
    OthersLeaveProducer(c, s2, mid, src);
  }
}
