/**
 The bounded multi-producer/single-consumer queue: producers reserve a position by
 compare-and-swap on `head`, fill the slot and raise its ready flag; the consumer
 takes the slot at `tail` once it is ready. Every atomic access is one step and runs
 are arbitrary sequentially consistent interleavings of any number of producers
 with the consumer. `head` and `tail` are unbounded naturals.
 */
module MpscQueue {
  import opened Bits
  import opened Wrappers

  type Item = nat

  datatype Slot = Slot(ready: bool, data: Item)

  /** Where a producer stands inside `enqueue`. */
  datatype ProducerPc =
    | Idle
    | SawHead(item: Item, h: nat)
    | SawTail(item: Item, h: nat, t: nat)
    | Reserved(item: Item, pos: nat)
    | Filled(pos: nat)

  /** Where the consumer stands inside `dequeue`. */
  datatype ConsumerPc = Resting | SawReady | Copied(item: Item) | Lowered(item: Item)

  /**
   `reserved` lists the items in the order their compare-and-swaps succeeded, `raised`
   the positions whose ready flag was ever stored, `dequeued` what the consumer returned.
   */
  datatype State = State(
    head: nat, tail: nat, slots: seq<Slot>, pc: seq<ProducerPc>, consumer: ConsumerPc,
    reserved: seq<Item>, raised: set<nat>, dequeued: seq<Item>)

  /** `spurious` lets the weak compare-and-swap fail although `head` matches. */
  datatype Action = Enqueue(p: nat, item: Item) | Producer(p: nat, spurious: bool) | Consumer

  datatype Config = Config(producers: nat, bits: nat) {
    function Capacity(): nat { Pow2(bits) }
    function Index(pos: nat): nat { MaskIndex(pos, bits) }
  }

  predicate Shape(c: Config, s: State) {
    |s.pc| == c.producers && |s.slots| == c.Capacity()
  }

  ghost predicate Init(c: Config, s: State) {
    && Shape(c, s)
    && s.head == s.tail == 0 && s.consumer == Resting
    && (forall p | 0 <= p < |s.pc| :: s.pc[p] == Idle)
    && (forall i | 0 <= i < |s.slots| :: !s.slots[i].ready)
    && s.reserved == [] && s.raised == {} && s.dequeued == []
  }

  predicate Enabled(c: Config, s: State, a: Action)
    requires Shape(c, s)
  {
    match a
    case Enqueue(p, _) => p < c.producers && s.pc[p].Idle?
    case Producer(p, _) => p < c.producers && !s.pc[p].Idle?
    case Consumer => true
  }

  function Apply(c: Config, s: State, a: Action): State
    requires Shape(c, s) && Enabled(c, s, a)
  {
    match a
    case Enqueue(p, item) => s.(pc := s.pc[p := SawHead(item, s.head)])
    case Producer(p, spurious) => ProducerStep(c, s, p, spurious)
    case Consumer => ConsumerStep(c, s)
  }

  /** Whether an enqueue that read `h` and then `t` reports BufferFull: the difference is taken on 64-bit words. */
  predicate ReportsFull(c: Config, h: nat, t: nat) {
    (h - t) % WORD >= c.Capacity()
  }

  function ProducerStep(c: Config, s: State, p: nat, spurious: bool): State
    requires Shape(c, s) && p < c.producers && !s.pc[p].Idle?
  {
    match s.pc[p]
    case SawHead(item, h) => s.(pc := s.pc[p := SawTail(item, h, s.tail)])
    case SawTail(item, h, t) =>
      if ReportsFull(c, h, t) then s.(pc := s.pc[p := Idle])
      else if s.head == h && !spurious then
        s.(head := h + 1, pc := s.pc[p := Reserved(item, h)], reserved := s.reserved + [item])
      else s.(pc := s.pc[p := SawHead(item, s.head)])
    case Reserved(item, pos) =>
      var i := c.Index(pos);
      s.(slots := s.slots[i := s.slots[i].(data := item)], pc := s.pc[p := Filled(pos)])
    case Filled(pos) =>
      var i := c.Index(pos);
      s.(slots := s.slots[i := s.slots[i].(ready := true)], pc := s.pc[p := Idle], raised := s.raised + {pos})
  }

  function ConsumerStep(c: Config, s: State): State
    requires Shape(c, s)
  {
    var i := c.Index(s.tail);
    match s.consumer
    case Resting => if s.slots[i].ready then s.(consumer := SawReady) else s
    case SawReady => s.(consumer := Copied(s.slots[i].data))
    case Copied(item) => s.(slots := s.slots[i := s.slots[i].(ready := false)], consumer := Lowered(item))
    case Lowered(item) => s.(tail := s.tail + 1, consumer := Resting, dequeued := s.dequeued + [item])
  }

  function Exec(c: Config, s: State, acts: seq<Action>): Option<State>
    decreases |acts|
  {
    if acts == [] then Some(s)
    else
      var q := Exec(c, s, acts[..|acts| - 1]);
      var a := acts[|acts| - 1];
      if q.Some? && Shape(c, q.value) && Enabled(c, q.value, a) then Some(Apply(c, q.value, a)) else None
  }

  // ---- Invariant ----

  predicate Holds(pc: ProducerPc, pos: nat) {
    (pc.Reserved? || pc.Filled?) && pc.pos == pos
  }

  /** Positions are in range, unraised, and a filled slot carries its item. */
  ghost predicate ProducerOk(c: Config, s: State, p: nat)
    requires Shape(c, s) && p < c.producers
  {
    match s.pc[p]
    case Idle => true
    case SawHead(item, h) => h <= s.head
    case SawTail(item, h, t) => h <= s.head && t <= s.tail && h <= t + c.Capacity()
    case Reserved(item, pos) => s.tail <= pos < |s.reserved| && pos !in s.raised && item == s.reserved[pos]
    case Filled(pos) =>
      s.tail <= pos < |s.reserved| && pos !in s.raised && s.slots[c.Index(pos)].data == s.reserved[pos]
  }

  /** What the slot of each position in the current window holds. */
  ghost predicate SlotOk(c: Config, s: State, pos: nat)
    requires Shape(c, s)
  {
    var slot := s.slots[c.Index(pos)];
    && (slot.ready <==> pos in s.raised && !(pos == s.tail && s.consumer.Lowered?))
    && (pos in s.raised ==> pos < |s.reserved| && slot.data == s.reserved[pos])
  }

  ghost predicate ConsumerOk(s: State) {
    && s.tail <= |s.reserved| && s.dequeued == s.reserved[..s.tail]
    && (!s.consumer.Resting? ==> s.tail in s.raised)
    && (s.consumer.Copied? || s.consumer.Lowered? ==> s.tail < |s.reserved| && s.consumer.item == s.reserved[s.tail])
  }

  ghost predicate Counters(c: Config, s: State) {
    && s.tail <= s.head <= s.tail + c.Capacity()
    && s.head == |s.reserved|
    && (forall pos | pos in s.raised :: pos < s.head)
    && (forall pos: nat | pos < s.tail :: pos in s.raised)
  }

  ghost predicate Distinct(s: State) {
    forall p, q, pos: nat | 0 <= p < |s.pc| && 0 <= q < |s.pc| && Holds(s.pc[p], pos) && Holds(s.pc[q], pos) :: p == q
  }

  /** Every reserved position that is not ready is being filled by some producer. */
  ghost predicate Attended(s: State) {
    forall pos: nat | pos < s.head && pos !in s.raised :: exists p :: 0 <= p < |s.pc| && Holds(s.pc[p], pos)
  }

  ghost predicate Inv(c: Config, s: State) {
    && c.bits <= 63 && Shape(c, s) && Counters(c, s) && ConsumerOk(s) && Distinct(s) && Attended(s)
    && (forall p: nat | p < c.producers :: ProducerOk(c, s, p))
    && (forall pos: nat | s.tail <= pos < s.tail + c.Capacity() :: SlotOk(c, s, pos))
  }

  /** On a difference that fits, the word difference is exact. */
  lemma GapIsExact(c: Config, h: nat, t: nat)
    requires t <= h <= t + c.Capacity() && c.bits <= 63
    ensures (h - t) % WORD == h - t
  {
    Pow2Mono(c.bits, 63);
    Pow2Of64();
    DivModUnique(h - t, WORD, 0, h - t);
  }

  /** A producer whose compare-and-swap succeeds has room: its view of `tail` is only ever behind. */
  lemma ReservationHasRoom(c: Config, s: State, p: nat)
    requires c.bits <= 63 && Shape(c, s) && Counters(c, s) && p < c.producers && ProducerOk(c, s, p)
    requires s.pc[p].SawTail? && !ReportsFull(c, s.pc[p].h, s.pc[p].t) && s.head == s.pc[p].h
    ensures s.head < s.tail + c.Capacity()
  {
    GapIsExact(c, s.pc[p].h, s.pc[p].t);
  }

  // ---- Each step keeps the invariant ----

  lemma EnqueueKeepsInv(c: Config, s: State, p: nat, item: Item)
    requires Inv(c, s) && Enabled(c, s, Enqueue(p, item))
    ensures Inv(c, Apply(c, s, Enqueue(p, item)))
  {
    var s' := Apply(c, s, Enqueue(p, item));
    forall q: nat | q < c.producers ensures ProducerOk(c, s', q) {
      assert ProducerOk(c, s, q);
    }
    KeepAttended(s, s', p);
    forall pos: nat | s'.tail <= pos < s'.tail + c.Capacity() ensures SlotOk(c, s', pos) {
      assert SlotOk(c, s, pos);
    }
  }

  /** A step of a producer that holds nothing keeps every reserved position attended. */
  lemma KeepAttended(s: State, s': State, p: nat)
    requires Attended(s) && p < |s.pc| && |s'.pc| == |s.pc| && s'.head == s.head && s'.raised == s.raised
    requires forall q | 0 <= q < |s.pc| && q != p :: s'.pc[q] == s.pc[q]
    requires forall pos: nat :: Holds(s.pc[p], pos) ==> Holds(s'.pc[p], pos)
    ensures Attended(s')
  {
    forall pos: nat | pos < s'.head && pos !in s'.raised
      ensures exists q :: 0 <= q < |s'.pc| && Holds(s'.pc[q], pos)
    {
      var q :| 0 <= q < |s.pc| && Holds(s.pc[q], pos);
      assert Holds(s'.pc[q], pos);
    }
  }

  lemma LookKeepsInv(c: Config, s: State, p: nat, spurious: bool)
    requires Inv(c, s) && p < c.producers && (s.pc[p].SawHead? || s.pc[p].SawTail?)
    requires ProducerStep(c, s, p, spurious).head == s.head
    ensures Inv(c, ProducerStep(c, s, p, spurious))
  {
    var s' := ProducerStep(c, s, p, spurious);
    forall q: nat | q < c.producers ensures ProducerOk(c, s', q) {
      assert ProducerOk(c, s, q);
    }
    KeepAttended(s, s', p);
    forall pos: nat | s'.tail <= pos < s'.tail + c.Capacity() ensures SlotOk(c, s', pos) {
      assert SlotOk(c, s, pos);
    }
  }

  lemma ReserveKeepsInv(c: Config, s: State, p: nat, spurious: bool)
    requires Inv(c, s) && p < c.producers && s.pc[p].SawTail?
    requires ProducerStep(c, s, p, spurious).head != s.head
    ensures Inv(c, ProducerStep(c, s, p, spurious))
  {
    var s' := ProducerStep(c, s, p, spurious);
    assert ProducerOk(c, s, p);
    ReservationHasRoom(c, s, p);
    forall q: nat | q < c.producers ensures ProducerOk(c, s', q) {
      assert ProducerOk(c, s, q);
    }
    forall q, pos: nat | 0 <= q < |s.pc| && q != p && Holds(s'.pc[q], pos) ensures pos != s.head {
      assert ProducerOk(c, s, q);
    }
    forall pos: nat | pos < s'.head && pos !in s'.raised
      ensures exists q :: 0 <= q < |s'.pc| && Holds(s'.pc[q], pos)
    {
      if pos == s.head {
        assert Holds(s'.pc[p], pos);
      } else {
        var q :| 0 <= q < |s.pc| && Holds(s.pc[q], pos);
        assert q != p && Holds(s'.pc[q], pos);
      }
    }
    forall pos: nat | s'.tail <= pos < s'.tail + c.Capacity() ensures SlotOk(c, s', pos) {
      assert SlotOk(c, s, pos);
    }
  }

  lemma FillKeepsInv(c: Config, s: State, p: nat, spurious: bool)
    requires Inv(c, s) && p < c.producers && s.pc[p].Reserved?
    ensures Inv(c, ProducerStep(c, s, p, spurious))
  {
    var s' := ProducerStep(c, s, p, spurious);
    var mine := s.pc[p].pos;
    assert ProducerOk(c, s, p);
    forall q: nat | q < c.producers ensures ProducerOk(c, s', q) {
      assert ProducerOk(c, s, q);
      if q != p && s.pc[q].Filled? {
        assert Holds(s.pc[p], mine) && Holds(s.pc[q], s.pc[q].pos);
        SameMaskIndex(c.bits, s.pc[q].pos, mine, s.tail);
      }
    }
    KeepAttended(s, s', p);
    forall pos: nat | s'.tail <= pos < s'.tail + c.Capacity() ensures SlotOk(c, s', pos) {
      assert SlotOk(c, s, pos);
      SameMaskIndex(c.bits, pos, mine, s.tail);
    }
  }

  lemma RaiseKeepsInv(c: Config, s: State, p: nat, spurious: bool)
    requires Inv(c, s) && p < c.producers && s.pc[p].Filled?
    ensures Inv(c, ProducerStep(c, s, p, spurious))
  {
    var s' := ProducerStep(c, s, p, spurious);
    var mine := s.pc[p].pos;
    assert ProducerOk(c, s, p);
    forall q: nat | q < c.producers ensures ProducerOk(c, s', q) {
      assert ProducerOk(c, s, q);
      if q != p && (s.pc[q].Filled? || s.pc[q].Reserved?) {
        assert Holds(s.pc[p], mine) && Holds(s.pc[q], s.pc[q].pos);
      }
    }
    forall pos: nat | pos < s'.head && pos !in s'.raised
      ensures exists q :: 0 <= q < |s'.pc| && Holds(s'.pc[q], pos)
    {
      var q :| 0 <= q < |s.pc| && Holds(s.pc[q], pos);
      assert q != p && Holds(s'.pc[q], pos);
    }
    forall pos: nat | s'.tail <= pos < s'.tail + c.Capacity() ensures SlotOk(c, s', pos) {
      assert SlotOk(c, s, pos);
      SameMaskIndex(c.bits, pos, mine, s.tail);
    }
  }

  lemma ConsumerKeepsInv(c: Config, s: State)
    requires Inv(c, s)
    ensures Inv(c, ConsumerStep(c, s))
  {
    var s' := ConsumerStep(c, s);
    assert SlotOk(c, s, s.tail);
    forall q: nat | q < c.producers ensures ProducerOk(c, s', q) {
      assert ProducerOk(c, s, q);
    }
    forall pos: nat | pos < s'.head && pos !in s'.raised
      ensures exists q :: 0 <= q < |s'.pc| && Holds(s'.pc[q], pos)
    {
      var q :| 0 <= q < |s.pc| && Holds(s.pc[q], pos);
      assert Holds(s'.pc[q], pos);
    }
    forall pos: nat | s'.tail <= pos < s'.tail + c.Capacity() ensures SlotOk(c, s', pos) {
      if pos < s.tail + c.Capacity() {
        assert SlotOk(c, s, pos);
        SameMaskIndex(c.bits, pos, s.tail, s.tail);
      } else {
        MaskIndexPeriod(c.bits, s.tail);
      }
    }
  }

  lemma StepKeepsInv(c: Config, s: State, a: Action)
    requires Inv(c, s) && Enabled(c, s, a)
    ensures Inv(c, Apply(c, s, a))
  {
    match a
    case Enqueue(p, item) => EnqueueKeepsInv(c, s, p, item);
    case Producer(p, spurious) =>
      if s.pc[p].Reserved? {
        FillKeepsInv(c, s, p, spurious);
      } else if s.pc[p].Filled? {
        RaiseKeepsInv(c, s, p, spurious);
      } else if ProducerStep(c, s, p, spurious).head != s.head {
        ReserveKeepsInv(c, s, p, spurious);
      } else {
        LookKeepsInv(c, s, p, spurious);
      }
    case Consumer => ConsumerKeepsInv(c, s);
  }

  lemma {:induction false} RunsKeepInv(c: Config, s0: State, acts: seq<Action>)
    requires c.bits <= 63 && Init(c, s0) && Exec(c, s0, acts).Some?
    ensures Inv(c, Exec(c, s0, acts).value)
    decreases |acts|
  {
    if acts == [] {
    } else {
      RunsKeepInv(c, s0, acts[..|acts| - 1]);
      StepKeepsInv(c, Exec(c, s0, acts[..|acts| - 1]).value, acts[|acts| - 1]);
    }
  }

  // ---- Main results ----

  ghost predicate Reachable(c: Config, s0: State, acts: seq<Action>) {
    c.bits <= 63 && Init(c, s0) && Exec(c, s0, acts).Some?
  }

  /** Dequeued items are a prefix of the reservation order, and the counters stay one capacity apart. */
  lemma DequeuedIsPrefix(c: Config, s0: State, acts: seq<Action>)
    requires Reachable(c, s0, acts)
    ensures var s := Exec(c, s0, acts).value;
            && s.dequeued <= s.reserved
            && |s.dequeued| == s.tail <= s.head == |s.reserved| <= s.tail + c.Capacity()
  {
    RunsKeepInv(c, s0, acts);
  }

  /** A producer about to write its slot shares it with no other unconsumed position. */
  lemma NoOverwrite(c: Config, s0: State, acts: seq<Action>, p: nat, pos: nat)
    requires Reachable(c, s0, acts) && p < c.producers
    requires var s := Exec(c, s0, acts).value;
             p < |s.pc| && s.pc[p].Reserved? && s.tail <= pos < s.head && pos != s.pc[p].pos
    ensures var s := Exec(c, s0, acts).value;
            c.Index(pos) != c.Index(s.pc[p].pos) && !s.slots[c.Index(s.pc[p].pos)].ready
  {
    RunsKeepInv(c, s0, acts);
    var s := Exec(c, s0, acts).value;
    assert ProducerOk(c, s, p);
    assert SlotOk(c, s, s.pc[p].pos);
    SameMaskIndex(c.bits, pos, s.pc[p].pos, s.tail);
  }

  /** A consumer about to copy a slot finds the complete item, and no producer is writing that slot. */
  lemma NoHalfWrittenRead(c: Config, s0: State, acts: seq<Action>, p: nat)
    requires Reachable(c, s0, acts) && p < c.producers
    requires Exec(c, s0, acts).value.consumer.SawReady?
    ensures var s := Exec(c, s0, acts).value;
            && s.tail < |s.reserved| && s.slots[c.Index(s.tail)].data == s.reserved[s.tail]
            && p < |s.pc|
            && (s.pc[p].Reserved? || s.pc[p].Filled? ==> c.Index(s.pc[p].pos) != c.Index(s.tail))
  {
    RunsKeepInv(c, s0, acts);
    var s := Exec(c, s0, acts).value;
    assert ProducerOk(c, s, p);
    assert SlotOk(c, s, s.tail);
    if s.pc[p].Reserved? || s.pc[p].Filled? {
      SameMaskIndex(c.bits, s.pc[p].pos, s.tail, s.tail);
    }
  }

  /** `dequeue` finds nothing exactly when the queue is empty or its oldest item is still being filled in. */
  lemma EmptyAnswerIsHonest(c: Config, s0: State, acts: seq<Action>)
    requires Reachable(c, s0, acts)
    requires Exec(c, s0, acts).value.consumer.Resting?
    ensures var s := Exec(c, s0, acts).value;
            ConsumerStep(c, s).consumer.Resting? <==>
            (s.head == s.tail || exists p :: 0 <= p < |s.pc| && Holds(s.pc[p], s.tail))
  {
    RunsKeepInv(c, s0, acts);
    var s := Exec(c, s0, acts).value;
    assert SlotOk(c, s, s.tail);
    if p :| 0 <= p < |s.pc| && Holds(s.pc[p], s.tail) {
      assert ProducerOk(c, s, p);
    }
  }

  // ---- BufferFull ----

  /**
   When an enqueue loads `tail` having read `h` from `head`: if h is not behind `tail`, it goes on to
   report BufferFull exactly when h is a full capacity ahead, and then the queue is full at that moment.
   */
  lemma FullIsHonestUnlessStale(c: Config, s0: State, acts: seq<Action>, p: nat)
    requires Reachable(c, s0, acts) && p < c.producers
    requires var s := Exec(c, s0, acts).value;
             p < |s.pc| && s.pc[p].SawHead? && s.tail <= s.pc[p].h
    ensures var s := Exec(c, s0, acts).value;
            ReportsFull(c, s.pc[p].h, s.tail) <==> s.pc[p].h == s.tail + c.Capacity()
    ensures var s := Exec(c, s0, acts).value;
            ReportsFull(c, s.pc[p].h, s.tail) ==> s.head - s.tail == c.Capacity()
  {
    RunsKeepInv(c, s0, acts);
    var s := Exec(c, s0, acts).value;
    assert ProducerOk(c, s, p);
    GapIsExact(c, s.pc[p].h, s.tail);
  }

  /**
   The step after both loads: it reports BufferFull if and only if the word difference is at least the capacity,
   reserves if and only if moreover `head` is as it was read and the swap does not fail by itself, and else starts over
   with the present `head`; a swap that did not fail by itself lost to another reservation.
   */
  lemma SwapOutcome(c: Config, s0: State, acts: seq<Action>, s: State, p: nat, spurious: bool)
    requires Reachable(c, s0, acts) && Exec(c, s0, acts) == Some(s) && Shape(c, s)
    requires p < c.producers && s.pc[p].SawTail?
    ensures var t, item, h, full := ProducerStep(c, s, p, spurious), s.pc[p].item, s.pc[p].h,
                                    (s.pc[p].h - s.pc[p].t) % WORD >= c.Capacity();
            && |t.pc| == |s.pc|
            && (t.pc[p].Idle? <==> full)
            && (t.head > s.head <==> !full && s.head == h && !spurious)
            && (!full && t.head == s.head ==> t.pc[p] == SawHead(item, s.head) && (!spurious ==> h < s.head))
            && (t.head == s.head ==> t == s.(pc := t.pc))
  {
    RunsKeepInv(c, s0, acts);
    assert ProducerOk(c, s, p);
  }

  /** With a head value behind `tail` the word subtraction wraps and the enqueue reports BufferFull regardless. */
  lemma StaleHeadReportsFull(c: Config, h: nat, t: nat)
    requires h < t && t - h <= WORD - c.Capacity()
    ensures ReportsFull(c, h, t)
  {
    DivModUnique(h - t, WORD, -1, h - t + WORD);
  }

  lemma OneMore(c: Config, s0: State, acts: seq<Action>, a: Action)
    requires Exec(c, s0, acts).Some?
    requires Shape(c, Exec(c, s0, acts).value) && Enabled(c, Exec(c, s0, acts).value, a)
    ensures Exec(c, s0, acts + [a]) == Some(Apply(c, Exec(c, s0, acts).value, a))
  {
    assert (acts + [a])[..|acts|] == acts;
  }

  /** A run in which producer 0's enqueue reports BufferFull on an empty queue of capacity one. */
  lemma SpuriousFullRun(s0: State) returns (acts: seq<Action>)
    requires Init(Config(2, 0), s0)
    ensures var c := Config(2, 0);
            && Exec(c, s0, acts).Some?
            && var s := Exec(c, s0, acts).value;
               && s.head == s.tail && |s.pc| == 2
               && s.pc[0].SawTail? && ReportsFull(c, s.pc[0].h, s.pc[0].t)
  {
    var c := Config(2, 0);
    var a0, a1, step := Enqueue(0, 7), Enqueue(1, 9), Producer(1, false);
    acts := [a0];
    assert Exec(c, s0, []) == Some(s0);
    OneMore(c, s0, [], a0);
    OneMore(c, s0, acts, a1);
    acts := acts + [a1];
    OneMore(c, s0, acts, step);
    acts := acts + [step];
    assert !ReportsFull(c, 0, 0);
    OneMore(c, s0, acts, step);
    acts := acts + [step];
    assert Exec(c, s0, acts).value.pc == [SawHead(7, 0), Reserved(9, 0)];
    OneMore(c, s0, acts, step);
    acts := acts + [step];
    OneMore(c, s0, acts, step);
    acts := acts + [step];
    var mid := Exec(c, s0, acts).value;
    assert mid.head == 1 && mid.tail == 0 && mid.pc == [SawHead(7, 0), Idle] && mid.slots[0] == Slot(true, 9);
    acts := ConsumeOne(c, s0, acts);
    OneMore(c, s0, acts, Producer(0, false));
    acts := acts + [Producer(0, false)];
    StaleHeadReportsFull(c, 0, 1);
  }

  lemma ConsumeOne(c: Config, s0: State, acts: seq<Action>) returns (more: seq<Action>)
    requires Exec(c, s0, acts).Some?
    requires var s := Exec(c, s0, acts).value;
             Shape(c, s) && s.consumer.Resting? && s.slots[c.Index(s.tail)].ready
    ensures Exec(c, s0, more).Some?
    ensures var s, t := Exec(c, s0, acts).value, Exec(c, s0, more).value;
            && Shape(c, t) && t.tail == s.tail + 1 && t.head == s.head && t.pc == s.pc && t.consumer.Resting?
            && t.dequeued == s.dequeued + [s.slots[c.Index(s.tail)].data]
  {
    OneMore(c, s0, acts, Consumer);
    OneMore(c, s0, acts + [Consumer], Consumer);
    OneMore(c, s0, acts + [Consumer] + [Consumer], Consumer);
    OneMore(c, s0, acts + [Consumer] + [Consumer] + [Consumer], Consumer);
    more := acts + [Consumer] + [Consumer] + [Consumer] + [Consumer];
  }

  // ---- Items, from the enqueue calls to the consumer ----

  /** The state before action k of a run, and after all of it for k == |acts|. */
  ghost function StateAt(c: Config, s0: State, acts: seq<Action>, k: nat): State
    requires Exec(c, s0, acts).Some? && k <= |acts|
    decreases |acts|
  {
    if k == |acts| then Exec(c, s0, acts).value else StateAt(c, s0, acts[..|acts| - 1], k)
  }

  /** The item of the latest enqueue call of producer p. */
  function LatestItem(acts: seq<Action>, p: nat): Item {
    if acts == [] then 0
    else
      var a := acts[|acts| - 1];
      if a.Enqueue? && a.p == p then a.item else LatestItem(acts[..|acts| - 1], p)
  }

  /** Step j is producer p's and raises `head`: its compare-and-swap succeeds. */
  ghost predicate Wins(c: Config, s0: State, acts: seq<Action>, j: nat, p: nat)
    requires Exec(c, s0, acts).Some?
  {
    && j < |acts| && acts[j].Producer? && acts[j].p == p
    && StateAt(c, s0, acts, j).head < StateAt(c, s0, acts, j + 1).head
  }

  /** The items passed to `enqueue`, in the order in which their compare-and-swaps succeeded. */
  ghost function CasOrder(c: Config, s0: State, acts: seq<Action>): seq<Item>
    requires Exec(c, s0, acts).Some?
    decreases |acts|
  {
    if acts == [] then []
    else
      var q, a := acts[..|acts| - 1], acts[|acts| - 1];
      if a.Producer? && Wins(c, s0, acts, |acts| - 1, a.p) then CasOrder(c, s0, q) + [LatestItem(q, a.p)]
      else CasOrder(c, s0, q)
  }

  predicate Carries(pc: ProducerPc, item: Item) {
    pc.SawHead? || pc.SawTail? || pc.Reserved? ==> pc.item == item
  }

  /** Until it is written, a producer carries the item it was called with. */
  lemma {:induction false} CarriesItem(c: Config, s0: State, acts: seq<Action>, p: nat)
    requires Init(c, s0) && Exec(c, s0, acts).Some? && p < c.producers
    ensures Shape(c, Exec(c, s0, acts).value) && Carries(Exec(c, s0, acts).value.pc[p], LatestItem(acts, p))
    decreases |acts|
  {
    if acts == [] {
    } else {
      CarriesItem(c, s0, acts[..|acts| - 1], p);
    }
  }

  lemma StateBeforeLast(c: Config, s0: State, acts: seq<Action>)
    requires Exec(c, s0, acts).Some? && acts != []
    ensures StateAt(c, s0, acts, |acts| - 1) == Exec(c, s0, acts[..|acts| - 1]).value
    ensures StateAt(c, s0, acts, |acts|) == Exec(c, s0, acts).value
  {
    var q := acts[..|acts| - 1];
    assert StateAt(c, s0, acts, |acts| - 1) == StateAt(c, s0, q, |q|);
  }

  /** What a step that is one producer's reservation, or is not, does to the list of reservations. */
  lemma StepReserves(c: Config, s: State, a: Action)
    requires Shape(c, s) && Enabled(c, s, a)
    ensures var t := Apply(c, s, a);
            if s.head < t.head then a.Producer? && s.pc[a.p].SawTail? && t.reserved == s.reserved + [s.pc[a.p].item]
            else t.reserved == s.reserved
  {
  }

  lemma {:induction false} ReservedInCasOrder(c: Config, s0: State, acts: seq<Action>)
    requires Init(c, s0) && Exec(c, s0, acts).Some?
    ensures Exec(c, s0, acts).value.reserved == CasOrder(c, s0, acts)
    decreases |acts|
  {
    if acts == [] {
    } else {
      var q, a := acts[..|acts| - 1], acts[|acts| - 1];
      ReservedInCasOrder(c, s0, q);
      StateBeforeLast(c, s0, acts);
      StepReserves(c, Exec(c, s0, q).value, a);
      if a.Producer? {
        CarriesItem(c, s0, q, a.p);
      }
    }
  }

  /** What the consumer returns is what was passed to `enqueue`, in compare-and-swap order, without gaps. */
  lemma DequeuedInCasOrder(c: Config, s0: State, acts: seq<Action>)
    requires Reachable(c, s0, acts)
    ensures var s := Exec(c, s0, acts).value;
            s.tail <= |CasOrder(c, s0, acts)| && s.dequeued == CasOrder(c, s0, acts)[..s.tail]
  {
    ReservedInCasOrder(c, s0, acts);
    DequeuedIsPrefix(c, s0, acts);
  }

  /** Action k calls `enqueue` with this item on producer p, which makes no other call afterwards. */
  predicate OneCall(acts: seq<Action>, k: nat, p: nat, item: Item) {
    && k < |acts| && acts[k] == Enqueue(p, item)
    && forall j | k < j < |acts| :: !(acts[j].Enqueue? && acts[j].p == p)
  }

  lemma {:induction false} LatestIsTheCall(acts: seq<Action>, k: nat, p: nat, item: Item)
    requires OneCall(acts, k, p, item)
    ensures LatestItem(acts, p) == item
    decreases |acts|
  {
    if k == |acts| - 1 {
    } else {
      LatestIsTheCall(acts[..|acts| - 1], k, p, item);
    }
  }

  /** The step that raises `head` for a call reserves exactly the item of that call. */
  lemma ReservesOwnItem(c: Config, s0: State, acts: seq<Action>, k: nat, p: nat, item: Item)
    requires Init(c, s0) && Exec(c, s0, acts).Some? && k < |acts| - 1 && p < c.producers
    requires OneCall(acts[..|acts| - 1], k, p, item) && Wins(c, s0, acts, |acts| - 1, p)
    ensures var q := acts[..|acts| - 1];
            && Exec(c, s0, q).Some?
            && Exec(c, s0, acts).value.reserved == Exec(c, s0, q).value.reserved + [item]
  {
    var q := acts[..|acts| - 1];
    StateBeforeLast(c, s0, acts);
    StepReserves(c, Exec(c, s0, q).value, acts[|acts| - 1]);
    CarriesItem(c, s0, q, p);
    LatestIsTheCall(q, k, p, item);
  }

  // ---- How a call ends ----

  /** No step of producer p after action k has raised `head`. */
  ghost predicate NoWin(c: Config, s0: State, acts: seq<Action>, k: nat, p: nat)
    requires Exec(c, s0, acts).Some?
  {
    forall j: nat :: k < j ==> !Wins(c, s0, acts, j, p)
  }

  /** Step j is the only one, and the item is listed at the position it took. */
  ghost predicate WonOnce(c: Config, s0: State, acts: seq<Action>, k: nat, p: nat, item: Item, j: nat)
    requires Exec(c, s0, acts).Some?
  {
    && k < j && Wins(c, s0, acts, j, p) && (forall i: nat :: k < i && Wins(c, s0, acts, i, p) ==> i == j)
    && var pos, s := StateAt(c, s0, acts, j).head, Exec(c, s0, acts).value;
       pos < |s.reserved| && s.reserved[pos] == item
  }

  /** Action i is producer p's. */
  predicate By(acts: seq<Action>, i: nat, p: nat) {
    i < |acts| && !acts[i].Consumer? && acts[i].p == p
  }

  /** The call is still looking: it read `head` in its action i and, if it got that far, `tail` in a later action j. */
  ghost predicate Looking(
    c: Config, s0: State, acts: seq<Action>, k: nat, p: nat, item: Item, i: nat, j: nat, pc: ProducerPc)
    requires Exec(c, s0, acts).Some? && (pc.SawHead? || pc.SawTail?)
  {
    && pc.item == item && NoWin(c, s0, acts, k, p)
    && k <= i && By(acts, i, p) && StateAt(c, s0, acts, i).head == pc.h
    && (pc.SawTail? ==> i < j && By(acts, j, p) && StateAt(c, s0, acts, j).tail == pc.t)
  }

  /** The call holds the position it took in action j. */
  ghost predicate Holding(
    c: Config, s0: State, acts: seq<Action>, k: nat, p: nat, item: Item, j: nat, pc: ProducerPc)
    requires Exec(c, s0, acts).Some? && (pc.Reserved? || pc.Filled?)
  {
    && (pc.Reserved? ==> pc.item == item)
    && WonOnce(c, s0, acts, k, p, item, j) && StateAt(c, s0, acts, j).head == pc.pos
  }

  /** What is true of the call at every moment; i and j are when it read `head` and `tail`, or j when it won. */
  ghost predicate CallOk(
    c: Config, s0: State, acts: seq<Action>, k: nat, p: nat, item: Item, i: nat, j: nat, pc: ProducerPc)
    requires Exec(c, s0, acts).Some?
  {
    if pc.Idle? then Refused(c, s0, acts, k, p, i, j) || Accepted(c, s0, acts, k, p, item, j)
    else if pc.SawHead? || pc.SawTail? then Looking(c, s0, acts, k, p, item, i, j, pc)
    else Holding(c, s0, acts, k, p, item, j, pc)
  }

  /** Turned away: no reservation, and the word difference of the two values read was at least the capacity. */
  ghost predicate Refused(c: Config, s0: State, acts: seq<Action>, k: nat, p: nat, i: nat, j: nat)
    requires Exec(c, s0, acts).Some?
  {
    && NoWin(c, s0, acts, k, p) && k <= i < j && By(acts, i, p) && By(acts, j, p)
    && (StateAt(c, s0, acts, i).head - StateAt(c, s0, acts, j).tail) % WORD >= c.Capacity()
  }

  /** Accepted: one reservation, which holds the item and was made ready for the consumer. */
  ghost predicate Accepted(c: Config, s0: State, acts: seq<Action>, k: nat, p: nat, item: Item, j: nat)
    requires Exec(c, s0, acts).Some?
  {
    WonOnce(c, s0, acts, k, p, item, j) && StateAt(c, s0, acts, j).head in Exec(c, s0, acts).value.raised
  }

  lemma EarlierState(c: Config, s0: State, acts: seq<Action>, i: nat)
    requires Exec(c, s0, acts).Some? && i < |acts|
    ensures Exec(c, s0, acts[..|acts| - 1]).Some?
    ensures StateAt(c, s0, acts, i) == StateAt(c, s0, acts[..|acts| - 1], i)
  {
  }

  lemma EarlierWins(c: Config, s0: State, acts: seq<Action>, i: nat, p: nat)
    requires Exec(c, s0, acts).Some? && i + 1 < |acts|
    ensures Exec(c, s0, acts[..|acts| - 1]).Some?
    ensures Wins(c, s0, acts, i, p) <==> Wins(c, s0, acts[..|acts| - 1], i, p)
  {
    EarlierState(c, s0, acts, i);
    EarlierState(c, s0, acts, i + 1);
  }

  /** A last step that is not a win of p leaves p without one, or with the one it had. */
  lemma NoWinStays(c: Config, s0: State, acts: seq<Action>, k: nat, p: nat)
    requires Exec(c, s0, acts).Some? && k < |acts| - 1 && !Wins(c, s0, acts, |acts| - 1, p)
    ensures var q := acts[..|acts| - 1];
            Exec(c, s0, q).Some? && (NoWin(c, s0, q, k, p) ==> NoWin(c, s0, acts, k, p))
  {
    var q := acts[..|acts| - 1];
    if NoWin(c, s0, q, k, p) {
      forall j: nat | k < j ensures !Wins(c, s0, acts, j, p) {
        if j + 1 < |acts| {
          EarlierWins(c, s0, acts, j, p);
        }
      }
    }
  }

  lemma WonOnceStays(c: Config, s0: State, acts: seq<Action>, k: nat, p: nat, item: Item, j: nat)
    requires Exec(c, s0, acts).Some? && k < |acts| - 1 && !Wins(c, s0, acts, |acts| - 1, p)
    requires var q := acts[..|acts| - 1]; Exec(c, s0, q).Some? && WonOnce(c, s0, q, k, p, item, j)
    ensures WonOnce(c, s0, acts, k, p, item, j)
    ensures StateAt(c, s0, acts, j) == StateAt(c, s0, acts[..|acts| - 1], j)
  {
    var q := acts[..|acts| - 1];
    EarlierWins(c, s0, acts, j, p);
    EarlierState(c, s0, acts, j);
    forall i: nat | k < i && Wins(c, s0, acts, i, p) ensures i == j {
      EarlierWins(c, s0, acts, i, p);
    }
    StepReserves(c, Exec(c, s0, q).value, acts[|acts| - 1]);
  }

  lemma FirstWin(c: Config, s0: State, acts: seq<Action>, k: nat, p: nat, item: Item)
    requires Exec(c, s0, acts).Some? && k < |acts| - 1 && Wins(c, s0, acts, |acts| - 1, p)
    requires var q := acts[..|acts| - 1]; Exec(c, s0, q).Some? && NoWin(c, s0, q, k, p)
    requires var s, pos := Exec(c, s0, acts).value, StateAt(c, s0, acts, |acts| - 1).head;
             pos < |s.reserved| && s.reserved[pos] == item
    ensures WonOnce(c, s0, acts, k, p, item, |acts| - 1)
  {
    forall i: nat | k < i && Wins(c, s0, acts, i, p) ensures i == |acts| - 1 {
      if i + 1 < |acts| {
        EarlierWins(c, s0, acts, i, p);
      }
    }
  }

  /** Every moment of a call. */
  lemma {:induction false} FollowCall(c: Config, s0: State, acts: seq<Action>, s: State, k: nat, p: nat, item: Item)
    returns (i: nat, j: nat)
    requires Reachable(c, s0, acts) && Exec(c, s0, acts) == Some(s) && OneCall(acts, k, p, item) && p < |s.pc|
    ensures CallOk(c, s0, acts, k, p, item, i, j, s.pc[p])
    decreases |acts|
  {
    StateBeforeLast(c, s0, acts);
    var q, a := acts[..|acts| - 1], acts[|acts| - 1];
    var b := Exec(c, s0, q).value;
    RunsKeepInv(c, s0, q);
    if k == |acts| - 1 {
      i, j := k, 0;
    } else {
      i, j := FollowCall(c, s0, q, b, k, p, item);
      if a.Producer? && a.p == p {
        i, j := FollowOwnStep(c, s0, acts, b, s, k, p, item, i, j);
      } else {
        OthersLeave(c, b, a, p);
        CallStays(c, s0, acts, k, p, item, i, j, s.pc[p]);
      }
    }
  }

  lemma OthersLeave(c: Config, s: State, a: Action, p: nat)
    requires Shape(c, s) && Enabled(c, s, a) && p < c.producers && (a.Consumer? || a.p != p)
    ensures Apply(c, s, a).pc[p] == s.pc[p]
  {
  }

  lemma RaisedStays(c: Config, s: State, a: Action)
    requires Shape(c, s) && Enabled(c, s, a)
    ensures s.raised <= Apply(c, s, a).raised
  {
  }

  /** The steps at which a call read `head` and `tail` are the same in a longer run. */
  lemma StillReading(c: Config, s0: State, acts: seq<Action>, k: nat, p: nat, i: nat, j: nat)
    requires Exec(c, s0, acts).Some? && k < |acts| - 1 && !Wins(c, s0, acts, |acts| - 1, p)
    ensures var q := acts[..|acts| - 1];
            && Exec(c, s0, q).Some?
            && (NoWin(c, s0, q, k, p) ==> NoWin(c, s0, acts, k, p))
            && (i < |q| ==> StateAt(c, s0, acts, i) == StateAt(c, s0, q, i))
            && (j < |q| ==> StateAt(c, s0, acts, j) == StateAt(c, s0, q, j))
  {
    NoWinStays(c, s0, acts, k, p);
  }

  /** What is true of a call stays true when somebody else moves. */
  lemma CallStays(
    c: Config, s0: State, acts: seq<Action>, k: nat, p: nat, item: Item, i: nat, j: nat, pc: ProducerPc)
    requires Exec(c, s0, acts).Some? && k < |acts| - 1 && !Wins(c, s0, acts, |acts| - 1, p)
    requires var q := acts[..|acts| - 1]; Exec(c, s0, q).Some? && CallOk(c, s0, q, k, p, item, i, j, pc)
    ensures CallOk(c, s0, acts, k, p, item, i, j, pc)
  {
    var q := acts[..|acts| - 1];
    if pc.Reserved? || pc.Filled? {
      WonOnceStays(c, s0, acts, k, p, item, j);
    } else if pc.Idle? {
      if Refused(c, s0, q, k, p, i, j) {
        RefusedStays(c, s0, acts, k, p, i, j);
      } else {
        AcceptedStays(c, s0, acts, k, p, item, j);
      }
    } else {
      StillReading(c, s0, acts, k, p, i, j);
    }
  }

  lemma RefusedStays(c: Config, s0: State, acts: seq<Action>, k: nat, p: nat, i: nat, j: nat)
    requires Exec(c, s0, acts).Some? && k < |acts| - 1 && !Wins(c, s0, acts, |acts| - 1, p)
    requires var q := acts[..|acts| - 1]; Exec(c, s0, q).Some? && Refused(c, s0, q, k, p, i, j)
    ensures Refused(c, s0, acts, k, p, i, j)
  {
    StillReading(c, s0, acts, k, p, i, j);
  }

  lemma AcceptedStays(c: Config, s0: State, acts: seq<Action>, k: nat, p: nat, item: Item, j: nat)
    requires Exec(c, s0, acts).Some? && k < |acts| - 1 && !Wins(c, s0, acts, |acts| - 1, p)
    requires var q := acts[..|acts| - 1]; Exec(c, s0, q).Some? && Accepted(c, s0, q, k, p, item, j)
    ensures Accepted(c, s0, acts, k, p, item, j)
  {
    RaisedStays(c, Exec(c, s0, acts[..|acts| - 1]).value, acts[|acts| - 1]);
    WonOnceStays(c, s0, acts, k, p, item, j);
  }

  /** A producer that holds a position fills it and raises its flag. */
  lemma FollowHolder(
    c: Config, s0: State, acts: seq<Action>, s: State, t: State, k: nat, p: nat, item: Item, i: nat, j: nat)
    requires Exec(c, s0, acts) == Some(t) && k < |acts| - 1 && Inv(c, s) && p < c.producers && p < |t.pc|
    requires acts[|acts| - 1].Producer? && acts[|acts| - 1].p == p && (s.pc[p].Reserved? || s.pc[p].Filled?)
    requires var q := acts[..|acts| - 1]; Exec(c, s0, q) == Some(s) && Holding(c, s0, q, k, p, item, j, s.pc[p])
    ensures CallOk(c, s0, acts, k, p, item, i, j, t.pc[p])
  {
    StateBeforeLast(c, s0, acts);
    WonOnceStays(c, s0, acts, k, p, item, j);
  }

  lemma FollowOwnStep(
    c: Config, s0: State, acts: seq<Action>, s: State, t: State, k: nat, p: nat, item: Item, i: nat, j: nat)
    returns (i': nat, j': nat)
    requires Exec(c, s0, acts) == Some(t) && k < |acts| - 1 && Inv(c, s) && p < c.producers && p < |t.pc|
    requires acts[|acts| - 1].Producer? && acts[|acts| - 1].p == p && !s.pc[p].Idle?
    requires var q := acts[..|acts| - 1]; Exec(c, s0, q) == Some(s) && CallOk(c, s0, q, k, p, item, i, j, s.pc[p])
    ensures CallOk(c, s0, acts, k, p, item, i', j', t.pc[p])
  {
    var n := |acts| - 1;
    StateBeforeLast(c, s0, acts);
    i', j' := i, j;
    if s.pc[p].Reserved? || s.pc[p].Filled? {
      FollowHolder(c, s0, acts, s, t, k, p, item, i, j);
    } else if Wins(c, s0, acts, n, p) {
      j' := n;
      FirstWin(c, s0, acts, k, p, item);
    } else {
      StillReading(c, s0, acts, k, p, i, j);
      if s.pc[p].SawHead? {
        j' := n;
      } else if t.pc[p].SawHead? {
        i' := n;
      }
    }
  }

  /**
   Every enqueue call that has returned either reserved one position, which holds its item and is ready, or reserved
   none and had read a `tail` and an earlier `head` whose difference was at least the capacity.
   */
  lemma EnqueueOutcome(c: Config, s0: State, acts: seq<Action>, k: nat, p: nat, item: Item) returns (i: nat, j: nat)
    requires Reachable(c, s0, acts) && OneCall(acts, k, p, item) && p < c.producers
    requires var s := Exec(c, s0, acts).value; p < |s.pc| && s.pc[p].Idle?
    ensures Refused(c, s0, acts, k, p, i, j) || Accepted(c, s0, acts, k, p, item, j)
  {
    i, j := FollowCall(c, s0, acts, Exec(c, s0, acts).value, k, p, item);
  }

  // ---- Progress ----

  /** A producer that runs alone in a queue with room has its item ready after four steps. */
  lemma AloneSucceeds(c: Config, s0: State, acts: seq<Action>, s: State, p: nat, item: Item) returns (more: seq<Action>)
    requires Reachable(c, s0, acts) && Exec(c, s0, acts) == Some(s) && Shape(c, s) && p < c.producers && s.pc[p].Idle?
    requires s.head < s.tail + c.Capacity()
    ensures Exec(c, s0, more).Some? && |more| == |acts| + 5
    ensures var t := Exec(c, s0, more).value;
            && t.pc == s.pc && t.head == s.head + 1 && t.tail == s.tail && t.dequeued == s.dequeued
            && t.reserved == s.reserved + [item] && t.raised == s.raised + {s.head}
  {
    RunsKeepInv(c, s0, acts);
    GapIsExact(c, s.head, s.tail);
    var step := Producer(p, false);
    more := acts + [Enqueue(p, item)];
    OneMore(c, s0, acts, Enqueue(p, item));
    OneMore(c, s0, more, step);
    OneMore(c, s0, more + [step], step);
    OneMore(c, s0, more + [step] + [step], step);
    OneMore(c, s0, more + [step] + [step] + [step], step);
    more := more + [step] + [step] + [step] + [step];
    assert Exec(c, s0, more).value.pc == s.pc;
  }

  /** A consumer that runs alone returns the oldest reserved item, once it is ready, after four steps. */
  lemma DequeueTakesOldest(c: Config, s0: State, acts: seq<Action>, s: State) returns (more: seq<Action>)
    requires Reachable(c, s0, acts) && Exec(c, s0, acts) == Some(s) && s.consumer.Resting? && s.tail in s.raised
    ensures Exec(c, s0, more).Some? && s.tail < |s.reserved|
    ensures var t := Exec(c, s0, more).value;
            && t.dequeued == s.dequeued + [s.reserved[s.tail]] && t.tail == s.tail + 1 && t.head == s.head
            && t.pc == s.pc && t.consumer.Resting?
  {
    RunsKeepInv(c, s0, acts);
    assert SlotOk(c, s, s.tail);
    more := ConsumeOne(c, s0, acts);
  }
}
