/**
 What the timing wheel means: a map from entry id to deadline tick, a stack of
 recyclable ids and a tick counter. Callbacks run during a tick are scripts of
 wheel operations; an operation that throws changes nothing.
 */
module TimerSpec {
  import opened Wrappers

  datatype Op = Schedule(ticks: nat) | Cancel(id: nat) | Reschedule(id: nat, ticks: nat)

  datatype Wheel = Wheel(slots: nat, now: nat, deadline: map<nat, nat>, free: seq<nat>, nextId: nat)

  function FreshId(w: Wheel): nat {
    if w.free != [] then w.free[|w.free| - 1] else w.nextId
  }

  function Scheduled(w: Wheel, ticks: nat): Wheel {
    if ticks >= w.slots then w
    else if w.free != [] then
      w.(deadline := w.deadline[FreshId(w) := w.now + ticks], free := w.free[..|w.free| - 1])
    else w.(deadline := w.deadline[FreshId(w) := w.now + ticks], nextId := w.nextId + 1)
  }

  function Cancelled(w: Wheel, id: nat): Wheel {
    if id in w.deadline then w.(deadline := w.deadline - {id}, free := w.free + [id]) else w
  }

  function Rescheduled(w: Wheel, id: nat, ticks: nat): Wheel {
    if ticks < w.slots && id in w.deadline then w.(deadline := w.deadline[id := w.now + ticks]) else w
  }

  function Perform(w: Wheel, op: Op): Wheel {
    match op
    case Schedule(n) => Scheduled(w, n)
    case Cancel(id) => Cancelled(w, id)
    case Reschedule(id, n) => Rescheduled(w, id, n)
  }

  function PerformAll(w: Wheel, ops: seq<Op>): Wheel {
    if ops == [] then w else Perform(PerformAll(w, ops[..|ops| - 1]), ops[|ops| - 1])
  }

  // ---- One tick ----

  /** What the first n callbacks of a tick do, when the k-th does `callback(k)`. */
  function Replies(callback: nat -> seq<Op>, n: nat): (r: seq<seq<Op>>)
    ensures |r| == n && forall k: nat | k < n :: r[k] == callback(k)
  {
    if n == 0 then [] else Replies(callback, n - 1) + [callback(n - 1)]
  }

  function Due(w: Wheel): set<nat> {
    set id | id in w.deadline && w.deadline[id] == w.now
  }

  /** The wheel after the due entries were taken out and the first k callbacks ran. */
  function AfterCallbacks(w: Wheel, fired: seq<nat>, scripts: seq<seq<Op>>, k: nat): Wheel
    requires k <= |fired| == |scripts|
  {
    if k == 0 then w.(deadline := w.deadline - Due(w))
    else
      var v := PerformAll(AfterCallbacks(w, fired, scripts, k - 1), scripts[k - 1]);
      v.(free := v.free + [fired[k - 1]])
  }

  function Ticked(w: Wheel, fired: seq<nat>, scripts: seq<seq<Op>>): Wheel
    requires |fired| == |scripts|
  {
    var v := AfterCallbacks(w, fired, scripts, |fired|);
    v.(now := v.now + 1)
  }

  function ToSet(s: seq<nat>): set<nat> {
    set id | id in s
  }

  /** `fired` names each due entry exactly once, and nothing else. */
  predicate FiresExactlyDue(w: Wheel, fired: seq<nat>) {
    NoDuplicates(fired) && (forall id | id in fired :: id in Due(w)) && (forall id | id in Due(w) :: id in fired)
  }

  // ---- Runs ----

  datatype Event = Do(op: Op) | Tick(fired: seq<nat>, scripts: seq<seq<Op>>)

  predicate CanHappen(w: Wheel, e: Event) {
    e.Tick? ==> |e.fired| == |e.scripts| && FiresExactlyDue(w, e.fired)
  }

  function Happens(w: Wheel, e: Event): Wheel
    requires CanHappen(w, e)
  {
    match e
    case Do(op) => Perform(w, op)
    case Tick(fired, scripts) => Ticked(w, fired, scripts)
  }

  /** A run from w to w': `trace` lists the wheels between the events. */
  ghost predicate IsRun(w: Wheel, events: seq<Event>, trace: seq<Wheel>) {
    && |trace| == |events| + 1 && trace[0] == w
    && forall k | 0 <= k < |events| :: CanHappen(trace[k], events[k]) && trace[k + 1] == Happens(trace[k], events[k])
  }

  /** No event of the run cancels or reschedules id, inside callbacks or out. */
  ghost predicate OpLeaves(op: Op, id: nat) {
    op.Schedule? || op.id != id
  }

  ghost predicate EventLeaves(e: Event, id: nat) {
    match e
    case Do(op) => OpLeaves(op, id)
    case Tick(_, scripts) =>
      forall k, j | 0 <= k < |scripts| && 0 <= j < |scripts[k]| :: OpLeaves(scripts[k][j], id)
  }

  ghost predicate Leaves(events: seq<Event>, id: nat) {
    forall k | 0 <= k < |events| :: EventLeaves(events[k], id)
  }

  // ---- Ids ----

  /** Live, recyclable and still-being-fired ids never overlap; all were issued, none is 0. */
  ghost predicate IdsOk(w: Wheel, pending: set<nat>) {
    && w.nextId >= 1
    && (forall id | id in w.deadline :: 1 <= id < w.nextId && id !in w.free && id !in pending)
    && (forall id | id in w.free :: 1 <= id < w.nextId && id !in pending)
    && (forall id | id in pending :: 1 <= id < w.nextId)
    && NoDuplicates(w.free)
    && (forall id | id in w.deadline :: w.deadline[id] < w.now + w.slots)
  }

  lemma PerformKeepsIds(w: Wheel, pending: set<nat>, op: Op)
    requires IdsOk(w, pending)
    ensures IdsOk(Perform(w, op), pending)
    ensures Perform(w, op).now == w.now && Perform(w, op).slots == w.slots
    ensures op.Schedule? && op.ticks < w.slots ==> FreshId(w) !in w.deadline && FreshId(w) !in pending
  {
    var v := Perform(w, op);
    if op.Schedule? && op.ticks < w.slots && w.free != [] {
      assert FreshId(w) in w.free;
      assert forall id | id in v.free :: id in w.free;
    }
  }

  lemma {:induction false} PerformAllKeepsIds(w: Wheel, pending: set<nat>, ops: seq<Op>)
    requires IdsOk(w, pending)
    ensures IdsOk(PerformAll(w, ops), pending)
    ensures PerformAll(w, ops).now == w.now && PerformAll(w, ops).slots == w.slots
  {
    if ops == [] {
    } else {
      PerformAllKeepsIds(w, pending, ops[..|ops| - 1]);
      PerformKeepsIds(PerformAll(w, ops[..|ops| - 1]), pending, ops[|ops| - 1]);
    }
  }

  function From(fired: seq<nat>, k: nat): set<nat>
    requires k <= |fired|
  {
    set j | k <= j < |fired| :: fired[j]
  }

  /** An id is not reissued before its pending callback has run: fired[k..] stay reserved through callback k. */
  lemma {:induction false} PendingIdsStayReserved(w: Wheel, fired: seq<nat>, scripts: seq<seq<Op>>, k: nat)
    requires k <= |fired| == |scripts| && IdsOk(w, {}) && FiresExactlyDue(w, fired)
    ensures IdsOk(AfterCallbacks(w, fired, scripts, k), From(fired, k))
    ensures AfterCallbacks(w, fired, scripts, k).now == w.now
    ensures AfterCallbacks(w, fired, scripts, k).slots == w.slots
  {
    if k == 0 {
      var v := w.(deadline := w.deadline - Due(w));
      forall id | id in From(fired, 0) ensures 1 <= id < w.nextId && id !in w.free && id !in v.deadline {
        assert id in fired;
      }
      assert IdsOk(v, From(fired, 0));
    } else {
      PendingIdsStayReserved(w, fired, scripts, k - 1);
      var u := AfterCallbacks(w, fired, scripts, k - 1);
      PerformAllKeepsIds(u, From(fired, k - 1), scripts[k - 1]);
      var v := PerformAll(u, scripts[k - 1]);
      var id := fired[k - 1];
      assert id in From(fired, k - 1);
      assert From(fired, k) <= From(fired, k - 1);
      assert id !in From(fired, k);
      var v' := v.(free := v.free + [id]);
      assert forall x | x in v'.free :: x in v.free || x == id;
    }
  }

  /** Every event keeps ids sound: an id handed out by `schedule` is never live, recyclable twice or 0. */
  lemma HappensKeepsIds(w: Wheel, e: Event)
    requires IdsOk(w, {}) && CanHappen(w, e)
    ensures IdsOk(Happens(w, e), {})
  {
    match e
    case Do(op) => PerformKeepsIds(w, {}, op);
    case Tick(fired, scripts) =>
      PendingIdsStayReserved(w, fired, scripts, |fired|);
      assert From(fired, |fired|) == {};
  }

  lemma {:induction false} RunsKeepIds(w: Wheel, events: seq<Event>, trace: seq<Wheel>, k: nat)
    requires IdsOk(w, {}) && IsRun(w, events, trace) && k <= |events|
    ensures IdsOk(trace[k], {})
  {
    if k == 0 {
    } else {
      RunsKeepIds(w, events, trace, k - 1);
      HappensKeepsIds(trace[k - 1], events[k - 1]);
    }
  }

  // ---- When an entry fires ----

  lemma LeftAlone(w: Wheel, pending: set<nat>, op: Op, id: nat)
    requires IdsOk(w, pending) && id in w.deadline && OpLeaves(op, id)
    ensures id in Perform(w, op).deadline && Perform(w, op).deadline[id] == w.deadline[id]
  {
    PerformKeepsIds(w, pending, op);
  }

  lemma {:induction false} LeftAloneByAll(w: Wheel, pending: set<nat>, ops: seq<Op>, id: nat)
    requires IdsOk(w, pending) && id in w.deadline
    requires forall j | 0 <= j < |ops| :: OpLeaves(ops[j], id)
    ensures id in PerformAll(w, ops).deadline && PerformAll(w, ops).deadline[id] == w.deadline[id]
  {
    if ops == [] {
    } else {
      LeftAloneByAll(w, pending, ops[..|ops| - 1], id);
      PerformAllKeepsIds(w, pending, ops[..|ops| - 1]);
      LeftAlone(PerformAll(w, ops[..|ops| - 1]), pending, ops[|ops| - 1], id);
    }
  }

  lemma {:induction false} NotDueSurvives(w: Wheel, fired: seq<nat>, scripts: seq<seq<Op>>, k: nat, id: nat)
    requires k <= |fired| == |scripts| && IdsOk(w, {}) && FiresExactlyDue(w, fired)
    requires id in w.deadline && w.deadline[id] != w.now && EventLeaves(Tick(fired, scripts), id)
    ensures id in AfterCallbacks(w, fired, scripts, k).deadline
    ensures AfterCallbacks(w, fired, scripts, k).deadline[id] == w.deadline[id]
  {
    if k == 0 {
    } else {
      NotDueSurvives(w, fired, scripts, k - 1, id);
      PendingIdsStayReserved(w, fired, scripts, k - 1);
      LeftAloneByAll(AfterCallbacks(w, fired, scripts, k - 1), From(fired, k - 1), scripts[k - 1], id);
    }
  }

  /** An entry left alone keeps its deadline through every event except the tick at that deadline. */
  lemma SurvivesEvent(w: Wheel, e: Event, id: nat)
    requires IdsOk(w, {}) && CanHappen(w, e) && EventLeaves(e, id)
    requires id in w.deadline && !(e.Tick? && w.deadline[id] == w.now)
    ensures id in Happens(w, e).deadline && Happens(w, e).deadline[id] == w.deadline[id]
    ensures Happens(w, e).now == w.now + (if e.Tick? then 1 else 0)
  {
    match e
    case Do(op) =>
      LeftAlone(w, {}, op, id);
      PerformKeepsIds(w, {}, op);
    case Tick(fired, scripts) =>
      NotDueSurvives(w, fired, scripts, |fired|, id);
      PendingIdsStayReserved(w, fired, scripts, |fired|);
  }

  function Ticks(events: seq<Event>): nat {
    if events == [] then 0 else Ticks(events[..|events| - 1]) + (if events[|events| - 1].Tick? then 1 else 0)
  }

  /** Before its deadline tick an untouched entry does not fire and stays in the wheel. */
  lemma {:induction false} WaitsForDeadline(w: Wheel, events: seq<Event>, trace: seq<Wheel>, k: nat, id: nat)
    requires IdsOk(w, {}) && IsRun(w, events, trace) && Leaves(events, id) && k <= |events|
    requires id in w.deadline && w.now + Ticks(events[..k]) <= w.deadline[id]
    ensures id in trace[k].deadline && trace[k].deadline[id] == w.deadline[id]
    ensures trace[k].now == w.now + Ticks(events[..k])
    ensures forall j | 0 <= j < k && events[j].Tick? :: id !in events[j].fired
  {
    if k == 0 {
    } else {
      assert events[..k][..k - 1] == events[..k - 1];
      WaitsForDeadline(w, events, trace, k - 1, id);
      RunsKeepIds(w, events, trace, k - 1);
      SurvivesEvent(trace[k - 1], events[k - 1], id);
    }
  }

  /** An entry whose deadline is n ticks ahead fires on exactly the (n+1)-th following tick, unless touched first. */
  lemma FiresOnTime(w: Wheel, events: seq<Event>, trace: seq<Wheel>, id: nat)
    requires IdsOk(w, {}) && IsRun(w, events, trace) && Leaves(events, id)
    requires id in w.deadline && w.now <= w.deadline[id]
    requires events != [] && events[|events| - 1].Tick? && Ticks(events) == w.deadline[id] - w.now + 1
    ensures id in events[|events| - 1].fired
    ensures forall j | 0 <= j < |events| - 1 && events[j].Tick? :: id !in events[j].fired
  {
    var k := |events| - 1;
    assert events[..k + 1] == events;
    WaitsForDeadline(w, events, trace, k, id);
    assert id in Due(trace[k]);
  }

  /** An entry whose deadline has already passed never fires again while it is left alone. */
  lemma {:induction false} StaleNeverFires(w: Wheel, events: seq<Event>, trace: seq<Wheel>, k: nat, id: nat)
    requires IdsOk(w, {}) && IsRun(w, events, trace) && Leaves(events, id) && k <= |events|
    requires id in w.deadline && w.deadline[id] < w.now
    ensures id in trace[k].deadline && trace[k].deadline[id] == w.deadline[id] < trace[k].now
    ensures forall j | 0 <= j < k && events[j].Tick? :: id !in events[j].fired
  {
    if k == 0 {
    } else {
      StaleNeverFires(w, events, trace, k - 1, id);
      RunsKeepIds(w, events, trace, k - 1);
      SurvivesEvent(trace[k - 1], events[k - 1], id);
    }
  }

  /** `schedule(n)` or `reschedule(id, n)` outside callbacks: the entry fires on exactly the (n+1)-th following tick. */
  lemma SetOutsideFires(w: Wheel, op: Op, id: nat, events: seq<Event>, trace: seq<Wheel>)
    requires IdsOk(w, {}) && !op.Cancel? && op.ticks < w.slots
    requires if op.Schedule? then id == FreshId(w) else id == op.id && id in w.deadline
    requires IsRun(Perform(w, op), events, trace) && Leaves(events, id)
    requires events != [] && events[|events| - 1].Tick? && Ticks(events) == op.ticks + 1
    ensures id in events[|events| - 1].fired
    ensures forall j | 0 <= j < |events| - 1 && events[j].Tick? :: id !in events[j].fired
  {
    PerformKeepsIds(w, {}, op);
    FiresOnTime(Perform(w, op), events, trace, id);
  }

  // ---- Cancelled entries and recycled ids ----

  predicate NoSchedule(ops: seq<Op>) {
    forall j | 0 <= j < |ops| :: !ops[j].Schedule?
  }

  /** The event schedules nothing, inside callbacks or out. */
  predicate SetsNothing(e: Event) {
    match e
    case Do(op) => !op.Schedule?
    case Tick(_, scripts) => forall k | 0 <= k < |scripts| :: NoSchedule(scripts[k])
  }

  lemma {:induction false} AbsentStays(w: Wheel, ops: seq<Op>, id: nat)
    requires id !in w.deadline && NoSchedule(ops)
    ensures id !in PerformAll(w, ops).deadline
  {
    if ops == [] {
    } else {
      AbsentStays(w, ops[..|ops| - 1], id);
    }
  }

  lemma {:induction false} AbsentThroughTick(w: Wheel, fired: seq<nat>, scripts: seq<seq<Op>>, k: nat, id: nat)
    requires k <= |fired| == |scripts| && id !in w.deadline && SetsNothing(Tick(fired, scripts))
    ensures id !in AfterCallbacks(w, fired, scripts, k).deadline
  {
    if k == 0 {
    } else {
      AbsentThroughTick(w, fired, scripts, k - 1, id);
      AbsentStays(AfterCallbacks(w, fired, scripts, k - 1), scripts[k - 1], id);
    }
  }

  /** A cancelled entry is gone at once and never fires, until a schedule hands its id out again. */
  lemma {:induction false} CancelledNeverFires(w: Wheel, id: nat, events: seq<Event>, trace: seq<Wheel>, k: nat)
    requires IsRun(Perform(w, Cancel(id)), events, trace) && k <= |events|
    requires forall j | 0 <= j < |events| :: SetsNothing(events[j])
    ensures id !in trace[k].deadline && forall j | 0 <= j < k && events[j].Tick? :: id !in events[j].fired
  {
    if k == 0 {
    } else {
      CancelledNeverFires(w, id, events, trace, k - 1);
      var e := events[k - 1];
      assert CanHappen(trace[k - 1], e) && trace[k] == Happens(trace[k - 1], e) && SetsNothing(e);
      if e.Tick? {
        AbsentThroughTick(trace[k - 1], e.fired, e.scripts, |e.fired|, id);
      }
    }
  }

  /** Every id ever issued is live, recyclable or about to be called back. */
  ghost predicate IdsKept(w: Wheel, pending: set<nat>) {
    forall id: nat | 1 <= id < w.nextId :: id in w.deadline || id in w.free || id in pending
  }

  lemma PerformLosesNoId(w: Wheel, pending: set<nat>, op: Op)
    requires IdsKept(w, pending)
    ensures IdsKept(Perform(w, op), pending)
  {
    var v := Perform(w, op);
    forall id: nat | 1 <= id < v.nextId ensures id in v.deadline || id in v.free || id in pending {
      if op.Schedule? && op.ticks < w.slots && w.free != [] && id in w.free {
        assert w.free == w.free[..|w.free| - 1] + [FreshId(w)];
      }
    }
  }

  lemma {:induction false} PerformAllLosesNoId(w: Wheel, pending: set<nat>, ops: seq<Op>)
    requires IdsKept(w, pending)
    ensures IdsKept(PerformAll(w, ops), pending)
  {
    if ops == [] {
    } else {
      PerformAllLosesNoId(w, pending, ops[..|ops| - 1]);
      PerformLosesNoId(PerformAll(w, ops[..|ops| - 1]), pending, ops[|ops| - 1]);
    }
  }

  lemma {:induction false} CallbacksLoseNoId(w: Wheel, fired: seq<nat>, scripts: seq<seq<Op>>, k: nat)
    requires k <= |fired| == |scripts| && IdsKept(w, {}) && FiresExactlyDue(w, fired)
    ensures IdsKept(AfterCallbacks(w, fired, scripts, k), From(fired, k))
  {
    if k == 0 {
      assert From(fired, 0) == Due(w);
    } else {
      CallbacksLoseNoId(w, fired, scripts, k - 1);
      PerformAllLosesNoId(AfterCallbacks(w, fired, scripts, k - 1), From(fired, k - 1), scripts[k - 1]);
      assert From(fired, k - 1) == From(fired, k) + {fired[k - 1]};
    }
  }

  /** No id leaks: in every run of a new wheel each id ever issued is live or recyclable between events. */
  lemma {:induction false} NoIdLost(w: Wheel, events: seq<Event>, trace: seq<Wheel>, k: nat)
    requires IdsKept(w, {}) && IsRun(w, events, trace) && k <= |events|
    ensures IdsKept(trace[k], {})
  {
    if k == 0 {
    } else {
      NoIdLost(w, events, trace, k - 1);
      var e := events[k - 1];
      assert CanHappen(trace[k - 1], e) && trace[k] == Happens(trace[k - 1], e);
      match e
      case Do(op) => PerformLosesNoId(trace[k - 1], {}, op);
      case Tick(fired, scripts) =>
        CallbacksLoseNoId(trace[k - 1], fired, scripts, |fired|);
        assert From(fired, |fired|) == {};
    }
  }

  // ---- Entries set from inside a callback ----

  /** The wheel in the middle of a tick: k callbacks done, j operations into the next one. */
  function Midway(w: Wheel, fired: seq<nat>, scripts: seq<seq<Op>>, k: nat, j: nat): Wheel
    requires k < |fired| == |scripts| && j <= |scripts[k]|
  {
    PerformAll(AfterCallbacks(w, fired, scripts, k), scripts[k][..j])
  }

  /** Everything the rest of the tick does after operation j of callback k leaves id alone. */
  ghost predicate RestLeaves(scripts: seq<seq<Op>>, k: nat, j: nat, id: nat) {
    forall a, b | 0 <= a < |scripts| && 0 <= b < |scripts[a]| && (a > k || (a == k && b > j)) ::
      OpLeaves(scripts[a][b], id)
  }

  lemma {:induction false} RestOfScript(u: Wheel, pending: set<nat>, ops: seq<Op>, j: nat, m: nat, id: nat)
    requires j < m <= |ops| && IdsOk(u, pending)
    requires id in PerformAll(u, ops[..j + 1]).deadline
    requires forall b | j < b < |ops| :: OpLeaves(ops[b], id)
    ensures id in PerformAll(u, ops[..m]).deadline
    ensures PerformAll(u, ops[..m]).deadline[id] == PerformAll(u, ops[..j + 1]).deadline[id]
    decreases m
  {
    if m <= j + 1 {
    } else {
      RestOfScript(u, pending, ops, j, m - 1, id);
      PerformAllKeepsIds(u, pending, ops[..m - 1]);
      assert ops[..m][..m - 1] == ops[..m - 1];
      LeftAlone(PerformAll(u, ops[..m - 1]), pending, ops[m - 1], id);
    }
  }

  lemma {:induction false} RestOfTick(w: Wheel, fired: seq<nat>, scripts: seq<seq<Op>>, k: nat, j: nat, m: nat, id: nat)
    requires k < m <= |fired| == |scripts| && j < |scripts[k]|
    requires IdsOk(w, {}) && FiresExactlyDue(w, fired) && RestLeaves(scripts, k, j, id)
    requires id in Midway(w, fired, scripts, k, j + 1).deadline
    ensures id in AfterCallbacks(w, fired, scripts, m).deadline
    ensures AfterCallbacks(w, fired, scripts, m).deadline[id] == Midway(w, fired, scripts, k, j + 1).deadline[id]
    decreases m
  {
    PendingIdsStayReserved(w, fired, scripts, m - 1);
    var u := AfterCallbacks(w, fired, scripts, m - 1);
    if m == k + 1 {
      RestOfScript(u, From(fired, k), scripts[k], j, |scripts[k]|, id);
      assert scripts[k][..|scripts[k]|] == scripts[k];
    } else {
      RestOfTick(w, fired, scripts, k, j, m - 1, id);
      LeftAloneByAll(u, From(fired, m - 1), scripts[m - 1], id);
    }
  }

  /** An entry set to n ticks by operation j of callback k ends the tick with the deadline counted from this tick. */
  lemma SetInCallback(w: Wheel, fired: seq<nat>, scripts: seq<seq<Op>>, k: nat, j: nat, id: nat)
    requires k < |fired| == |scripts| && j < |scripts[k]| && IdsOk(w, {}) && FiresExactlyDue(w, fired)
    requires var u, op := Midway(w, fired, scripts, k, j), scripts[k][j];
             && !op.Cancel? && op.ticks < w.slots
             && (if op.Schedule? then id == FreshId(u) else id == op.id && id in u.deadline)
    requires RestLeaves(scripts, k, j, id)
    ensures var v := Ticked(w, fired, scripts);
            && v.now == w.now + 1 && IdsOk(v, {})
            && id in v.deadline && v.deadline[id] == w.now + scripts[k][j].ticks
  {
    PendingIdsStayReserved(w, fired, scripts, k);
    PerformAllKeepsIds(AfterCallbacks(w, fired, scripts, k), From(fired, k), scripts[k][..j]);
    assert scripts[k][..j + 1][..j] == scripts[k][..j];
    assert Midway(w, fired, scripts, k, j + 1) == Perform(Midway(w, fired, scripts, k, j), scripts[k][j]);
    RestOfTick(w, fired, scripts, k, j, |fired|, id);
    HappensKeepsIds(w, Tick(fired, scripts));
    PendingIdsStayReserved(w, fired, scripts, |fired|);
  }

  /**
   Inside a callback: an entry set to n ticks fires, if left alone, on exactly the n-th tick after the
   current one when n >= 1, and never when n == 0 -- not even after a full revolution of the wheel.
   */
  lemma SetInCallbackFires(
    w: Wheel, fired: seq<nat>, scripts: seq<seq<Op>>, k: nat, j: nat, id: nat, events: seq<Event>, trace: seq<Wheel>)
    requires k < |fired| == |scripts| && j < |scripts[k]| && IdsOk(w, {}) && FiresExactlyDue(w, fired)
    requires var u, op := Midway(w, fired, scripts, k, j), scripts[k][j];
             && !op.Cancel? && op.ticks < w.slots
             && (if op.Schedule? then id == FreshId(u) else id == op.id && id in u.deadline)
    requires RestLeaves(scripts, k, j, id)
    requires IsRun(Ticked(w, fired, scripts), events, trace) && Leaves(events, id)
    ensures scripts[k][j].ticks == 0 ==> forall i | 0 <= i < |events| && events[i].Tick? :: id !in events[i].fired
    ensures scripts[k][j].ticks >= 1 && events != [] && events[|events| - 1].Tick? && Ticks(events) == scripts[k][j].ticks ==>
              && id in events[|events| - 1].fired
              && forall i | 0 <= i < |events| - 1 && events[i].Tick? :: id !in events[i].fired
  {
    SetInCallback(w, fired, scripts, k, j, id);
    var v := Ticked(w, fired, scripts);
    if scripts[k][j].ticks == 0 {
      StaleNeverFires(v, events, trace, |events|, id);
    } else if events != [] && events[|events| - 1].Tick? && Ticks(events) == scripts[k][j].ticks {
      FiresOnTime(v, events, trace, id);
    }
  }
}
