/**
 Sessions with heartbeat timeouts: the session table, the embedded timer ids and the
 reverse index from timer id to session id, over the timing wheel. Remove and
 timeout callbacks are recorded and leave the manager alone.
 */
module SessionSpec {
  import opened Wrappers
  import opened TimerSpec

  /** `timer` is the embedded wheel id, 0 for none; `touched` is the tick of the last touch. */
  datatype Session = Session(timer: nat, touched: nat)

  /** `removed` logs the remove notifications, `timedOut` the timeout notifications. */
  datatype Manager = Manager(
    h: nat, wheel: Wheel, sessions: map<nat, Session>, byTimer: map<nat, nat>, nextId: nat,
    removed: seq<nat>, timedOut: seq<nat>)

  /** A manager just constructed, with heartbeat h and a wheel of the given number of slots. */
  function Fresh(h: nat, slots: nat): Manager {
    Manager(h, Wheel(slots, 0, map[], [], 1), map[], map[], 1, [], [])
  }

  /** A new session; when the heartbeat does not fit the wheel its timer is never set. */
  function Created(m: Manager): Manager {
    if 0 < m.h < m.wheel.slots then
      var t := FreshId(m.wheel);
      m.(wheel := Scheduled(m.wheel, m.h), sessions := m.sessions[m.nextId := Session(t, m.wheel.now)],
         byTimer := m.byTimer[t := m.nextId], nextId := m.nextId + 1)
    else m.(sessions := m.sessions[m.nextId := Session(0, m.wheel.now)], nextId := m.nextId + 1)
  }

  function Removed(m: Manager, id: nat): Manager {
    if id !in m.sessions then m
    else
      var t := m.sessions[id].timer;
      var u := if t != 0 then m.(wheel := Cancelled(m.wheel, t), byTimer := m.byTimer - {t}) else m;
      u.(sessions := m.sessions - {id}, removed := m.removed + [id])
  }

  function Touched(m: Manager, id: nat): Manager {
    if m.h == 0 || id !in m.sessions || m.sessions[id].timer == 0 then m
    else m.(wheel := Rescheduled(m.wheel, m.sessions[id].timer, m.h),
            sessions := m.sessions[id := m.sessions[id].(touched := m.wheel.now)])
  }

  /** `on_timer_expire`. */
  function Expired(m: Manager, t: nat): Manager {
    if t !in m.byTimer then m
    else
      var id := m.byTimer[t];
      var u := m.(byTimer := m.byTimer - {t});
      if id !in m.sessions then u
      else u.(sessions := m.sessions - {id}, removed := m.removed + [id], timedOut := m.timedOut + [id])
  }

  function ExpiredAll(m: Manager, fired: seq<nat>): Manager {
    if fired == [] then m else Expired(ExpiredAll(m, fired[..|fired| - 1]), fired[|fired| - 1])
  }

  function Silent(n: nat): (r: seq<seq<Op>>)
    ensures |r| == n && forall k | 0 <= k < n :: r[k] == []
  {
    if n == 0 then [] else Silent(n - 1) + [[]]
  }

  function Ticking(m: Manager, fired: seq<nat>): Manager {
    ExpiredAll(m.(wheel := Ticked(m.wheel, fired, Silent(|fired|))), fired)
  }

  // ---- Invariant ----

  /** Wheel ids, reverse index and embedded timer ids are exact inverses; every session waits for touched + h. */
  ghost predicate Indexed(m: Manager) {
    && (forall t | t in m.byTimer ::
          t in m.wheel.deadline && m.byTimer[t] in m.sessions && m.sessions[m.byTimer[t]].timer == t)
    && (forall t | t in m.wheel.deadline :: t in m.byTimer)
    && (forall id | id in m.sessions ::
          && m.sessions[id].timer in m.byTimer && m.byTimer[m.sessions[id].timer] == id
          && m.wheel.deadline[m.sessions[id].timer] == m.sessions[id].touched + m.h)
  }

  /** Each issued id is either live or was notified as removed exactly once. */
  ghost predicate Accounted(m: Manager) {
    && m.nextId >= 1
    && (forall id | id in m.sessions :: 1 <= id < m.nextId && id !in m.removed)
    && (forall id: nat | 1 <= id < m.nextId :: id in m.sessions || id in m.removed)
    && (forall id | id in m.removed :: 1 <= id < m.nextId)
    && NoDuplicates(m.removed)
  }

  ghost predicate Inv(m: Manager) {
    && 0 < m.h < m.wheel.slots && IdsOk(m.wheel, {}) && Indexed(m) && Accounted(m)
    && forall id | id in m.sessions :: m.sessions[id].touched <= m.wheel.now <= m.sessions[id].touched + m.h
  }

  lemma CreateKeepsInv(m: Manager)
    requires Inv(m)
    ensures Inv(Created(m))
  {
    PerformKeepsIds(m.wheel, {}, Schedule(m.h));
    CreatedIndexed(m);
    CreatedAccounted(m);
  }

  lemma CreatedIndexed(m: Manager)
    requires Indexed(m) && 0 < m.h < m.wheel.slots && FreshId(m.wheel) !in m.wheel.deadline && m.nextId !in m.sessions
    ensures Indexed(Created(m))
  {
    assert FreshId(m.wheel) !in m.byTimer;
  }

  lemma CreatedAccounted(m: Manager)
    requires Accounted(m)
    ensures Accounted(Created(m))
  {
  }

  lemma RemoveKeepsInv(m: Manager, id: nat)
    requires Inv(m)
    ensures Inv(Removed(m, id))
  {
    if id in m.sessions {
      var t := m.sessions[id].timer;
      PerformKeepsIds(m.wheel, {}, Cancel(t));
      assert t in m.wheel.deadline;
      assert Indexed(Removed(m, id));
      RemovedAccounted(m, Removed(m, id), id);
    }
  }

  lemma RemovedAccounted(m: Manager, n: Manager, id: nat)
    requires Accounted(m) && id in m.sessions && n.sessions == m.sessions - {id}
    requires n.removed == m.removed + [id] && n.nextId == m.nextId
    ensures Accounted(n)
  {
    forall x: nat | 1 <= x < n.nextId ensures x in n.sessions || x in n.removed {
      if x == id {
        assert n.removed[|m.removed|] == id;
      } else if x in m.removed {
        assert x in n.removed;
      }
    }
  }

  lemma TouchKeepsInv(m: Manager, id: nat)
    requires Inv(m)
    ensures Inv(Touched(m, id))
  {
    if id in m.sessions {
      PerformKeepsIds(m.wheel, {}, Reschedule(m.sessions[id].timer, m.h));
      TouchedIndexed(m, id);
      TouchedAccounted(m, id);
    }
  }

  lemma TouchedIndexed(m: Manager, id: nat)
    requires 0 < m.h < m.wheel.slots && Indexed(m) && id in m.sessions
    ensures Indexed(Touched(m, id))
  {
  }

  lemma TouchedAccounted(m: Manager, id: nat)
    requires Accounted(m) && id in m.sessions
    ensures Accounted(Touched(m, id))
  {
  }

  // ---- One tick ----

  /** Silent callbacks only take the due entries out and recycle their ids. */
  lemma {:induction false} SilentCallbacks(w: Wheel, fired: seq<nat>, k: nat)
    requires k <= |fired|
    ensures AfterCallbacks(w, fired, Silent(|fired|), k) ==
            w.(deadline := w.deadline - Due(w), free := w.free + fired[..k])
  {
    if k > 0 {
      SilentCallbacks(w, fired, k - 1);
      assert fired[..k] == fired[..k - 1] + [fired[k - 1]];
      assert w.free + fired[..k] == w.free + fired[..k - 1] + [fired[k - 1]];
    } else {
      assert w.free + fired[..0] == w.free;
    }
  }

  /** The sessions whose heartbeat is over at this tick. */
  function Lapsed(m: Manager): set<nat> {
    set id | id in m.sessions && m.sessions[id].touched + m.h == m.wheel.now
  }

  /** The sessions of the timers, in firing order. */
  function Owners(m: Manager, fired: seq<nat>): (r: seq<nat>)
    requires forall t | t in fired :: t in m.byTimer
    ensures |r| == |fired| && forall k | 0 <= k < |fired| :: r[k] == m.byTimer[fired[k]]
  {
    if fired == [] then [] else Owners(m, fired[..|fired| - 1]) + [m.byTimer[fired[|fired| - 1]]]
  }

  lemma SetOfLast(s: seq<nat>)
    requires s != []
    ensures ToSet(s) == ToSet(s[..|s| - 1]) + {s[|s| - 1]}
  {
    assert s == s[..|s| - 1] + [s[|s| - 1]];
  }

  lemma OwnersDiffer(m: Manager, fired: seq<nat>, k: nat)
    requires NoDuplicates(fired) && k < |fired|
    requires forall t | t in fired :: t in m.byTimer && m.byTimer[t] in m.sessions && m.sessions[m.byTimer[t]].timer == t
    ensures (forall t | t in fired[..k] :: t in m.byTimer) && m.byTimer[fired[k]] !in Owners(m, fired[..k])
  {
    forall j | 0 <= j < k ensures m.byTimer[fired[j]] != m.byTimer[fired[k]] {
      assert fired[j] in fired && fired[k] in fired;
    }
  }

  lemma {:induction false} ExpireSequence(m: Manager, fired: seq<nat>)
    requires NoDuplicates(fired)
    requires forall t | t in fired :: t in m.byTimer && m.byTimer[t] in m.sessions && m.sessions[m.byTimer[t]].timer == t
    ensures var n, ids := ExpiredAll(m, fired), Owners(m, fired);
            && n.wheel == m.wheel && n.h == m.h && n.nextId == m.nextId
            && n.byTimer == m.byTimer - ToSet(fired)
            && n.sessions == m.sessions - ToSet(ids)
            && n.removed == m.removed + ids && n.timedOut == m.timedOut + ids
  {
    if fired == [] {
      assert ToSet([]) == {};
    } else {
      var k := |fired| - 1;
      var prefix, t := fired[..k], fired[k];
      assert t in fired;
      ExpireSequence(m, prefix);
      OwnersDiffer(m, fired, k);
      var ids := Owners(m, prefix);
      assert t !in prefix;
      ExpireNext(m, ExpiredAll(m, prefix), ToSet(prefix), ToSet(ids), t);
      SetOfLast(fired);
      SetOfLast(Owners(m, fired));
      assert Owners(m, fired)[..k] == ids;
      Regroup(m.removed, ids, m.byTimer[t]);
      Regroup(m.timedOut, ids, m.byTimer[t]);
    }
  }

  lemma Regroup(a: seq<nat>, b: seq<nat>, x: nat)
    ensures a + b + [x] == a + (b + [x])
  {
  }

  lemma ExpireNext(m: Manager, n: Manager, gone: set<nat>, ids: set<nat>, t: nat)
    requires t in m.byTimer && t !in gone && m.byTimer[t] in m.sessions && m.byTimer[t] !in ids
    requires n.byTimer == m.byTimer - gone && n.sessions == m.sessions - ids
    ensures Expired(n, t).byTimer == m.byTimer - (gone + {t})
    ensures Expired(n, t).sessions == m.sessions - (ids + {m.byTimer[t]})
    ensures Expired(n, t).removed == n.removed + [m.byTimer[t]]
    ensures Expired(n, t).timedOut == n.timedOut + [m.byTimer[t]]
  {
  }

  /** A tick times out exactly the sessions whose last touch was h ticks ago, each once, and nobody else. */
  lemma TickTimesOut(m: Manager, fired: seq<nat>)
    requires Inv(m) && FiresExactlyDue(m.wheel, fired)
    ensures var n := Ticking(m, fired);
            && n.sessions == m.sessions - Lapsed(m)
            && n.wheel.now == m.wheel.now + 1
            && exists ids :: && NoDuplicates(ids) && ToSet(ids) == Lapsed(m)
                             && n.removed == m.removed + ids && n.timedOut == m.timedOut + ids
  {
    SilentCallbacks(m.wheel, fired, |fired|);
    var u := m.(wheel := Ticked(m.wheel, fired, Silent(|fired|)));
    ExpireSequence(u, fired);
    var ids := Owners(u, fired);
    OwnersAreLapsed(m, fired);
    assert Owners(u, fired) == Owners(m, fired);
    assert NoDuplicates(ids) && ToSet(ids) == Lapsed(m);
  }

  lemma OwnersAreLapsed(m: Manager, fired: seq<nat>)
    requires Inv(m) && FiresExactlyDue(m.wheel, fired)
    ensures forall t | t in fired :: t in m.byTimer
    ensures NoDuplicates(Owners(m, fired)) && ToSet(Owners(m, fired)) == Lapsed(m)
  {
    var ids := Owners(m, fired);
    forall i, j | 0 <= i < j < |ids| ensures ids[i] != ids[j] {
      assert fired[i] in fired && fired[j] in fired && fired[i] != fired[j];
    }
    forall id | id in Lapsed(m) ensures id in ids {
      var t := m.sessions[id].timer;
      assert t in Due(m.wheel);
      var k :| 0 <= k < |fired| && fired[k] == t;
      assert ids[k] == id;
    }
    forall id | id in ids ensures id in Lapsed(m) {
      var k :| 0 <= k < |ids| && ids[k] == id;
      assert fired[k] in fired;
    }
  }

  lemma TickKeepsInv(m: Manager, fired: seq<nat>)
    requires Inv(m) && FiresExactlyDue(m.wheel, fired)
    ensures Inv(Ticking(m, fired))
  {
    var n := Ticking(m, fired);
    SilentCallbacks(m.wheel, fired, |fired|);
    HappensKeepsIds(m.wheel, Tick(fired, Silent(|fired|)));
    TickTimesOut(m, fired);
    var u := m.(wheel := Ticked(m.wheel, fired, Silent(|fired|)));
    ExpireSequence(u, fired);
    TickIndexed(m, fired, n);
    TickAccounted(m, n);
  }

  lemma TickIndexed(m: Manager, fired: seq<nat>, n: Manager)
    requires Inv(m) && FiresExactlyDue(m.wheel, fired)
    requires n.h == m.h && n.wheel.deadline == m.wheel.deadline - Due(m.wheel)
    requires n.byTimer == m.byTimer - ToSet(fired) && n.sessions == m.sessions - Lapsed(m)
    ensures Indexed(n)
  {
    assert ToSet(fired) == Due(m.wheel);
    forall t | t in n.byTimer
      ensures t in n.wheel.deadline && n.byTimer[t] in n.sessions && n.sessions[n.byTimer[t]].timer == t
    {
      assert t in m.byTimer;
    }
    forall id | id in n.sessions
      ensures && n.sessions[id].timer in n.byTimer && n.byTimer[n.sessions[id].timer] == id
              && n.wheel.deadline[n.sessions[id].timer] == n.sessions[id].touched + n.h
    {
      assert id in m.sessions;
    }
  }

  lemma TickAccounted(m: Manager, n: Manager)
    requires Inv(m) && n.nextId == m.nextId && n.sessions == m.sessions - Lapsed(m)
    requires exists ids :: NoDuplicates(ids) && ToSet(ids) == Lapsed(m) && n.removed == m.removed + ids
    ensures Accounted(n)
  {
    var ids :| NoDuplicates(ids) && ToSet(ids) == Lapsed(m) && n.removed == m.removed + ids;
    forall i, j | 0 <= i < j < |n.removed| ensures n.removed[i] != n.removed[j] {
      if i < |m.removed| <= j {
        assert ids[j - |m.removed|] in ToSet(ids);
        assert m.removed[i] in m.removed;
      }
    }
    forall x: nat | 1 <= x < n.nextId ensures x in n.sessions || x in n.removed {
      if x in Lapsed(m) {
        assert x in ids;
      }
    }
    forall x | x in n.removed ensures 1 <= x < n.nextId {
      if x !in m.removed {
        assert x in ids;
        assert x in ToSet(ids);
      }
    }
    forall x | x in n.sessions ensures x !in n.removed {
      assert x in ids <==> x in ToSet(ids);
    }
  }

  // ---- Runs ----

  datatype Event = Create | Remove(id: nat) | Touch(id: nat) | TickOf(fired: seq<nat>)

  predicate CanHappen(m: Manager, e: Event) {
    e.TickOf? ==> FiresExactlyDue(m.wheel, e.fired)
  }

  function Happens(m: Manager, e: Event): Manager {
    match e
    case Create => Created(m)
    case Remove(id) => Removed(m, id)
    case Touch(id) => Touched(m, id)
    case TickOf(fired) => Ticking(m, fired)
  }

  ghost predicate IsRun(m: Manager, events: seq<Event>, trace: seq<Manager>) {
    && |trace| == |events| + 1 && trace[0] == m
    && forall k | 0 <= k < |events| :: CanHappen(trace[k], events[k]) && trace[k + 1] == Happens(trace[k], events[k])
  }

  lemma {:induction false} RunKeepsInvFrom(m: Manager, events: seq<Event>, trace: seq<Manager>, k: nat)
    requires Inv(m) && IsRun(m, events, trace) && k <= |events|
    ensures Inv(trace[k])
  {
    if k == 0 {
    } else {
      RunKeepsInvFrom(m, events, trace, k - 1);
      match events[k - 1]
      case Create => CreateKeepsInv(trace[k - 1]);
      case Remove(id) => RemoveKeepsInv(trace[k - 1], id);
      case Touch(id) => TouchKeepsInv(trace[k - 1], id);
      case TickOf(fired) => TickKeepsInv(trace[k - 1], fired);
    }
  }

  /** The invariant of every run of a new manager: indexes inverse to each other, every removal notified exactly once. */
  lemma RunsKeepInv(h: nat, slots: nat, events: seq<Event>, trace: seq<Manager>, k: nat)
    requires 0 < h < slots && IsRun(Fresh(h, slots), events, trace) && k <= |events|
    ensures Inv(trace[k]) && trace[k].h == h
  {
    RunKeepsInvFrom(Fresh(h, slots), events, trace, k);
    HeartbeatStays(Fresh(h, slots), events, trace, k);
  }

  lemma {:induction false} HeartbeatStays(m: Manager, events: seq<Event>, trace: seq<Manager>, k: nat)
    requires IsRun(m, events, trace) && k <= |events|
    ensures trace[k].h == m.h
  {
    if k == 0 {
    } else {
      HeartbeatStays(m, events, trace, k - 1);
      if events[k - 1].TickOf? {
        ExpiryKeepsHeartbeat(
          trace[k - 1].(wheel := Ticked(trace[k - 1].wheel, events[k - 1].fired, Silent(|events[k - 1].fired|))),
          events[k - 1].fired);
      }
    }
  }

  lemma {:induction false} ExpiryKeepsHeartbeat(m: Manager, fired: seq<nat>)
    ensures ExpiredAll(m, fired).h == m.h
    decreases |fired|
  {
    if fired == [] {
    } else {
      ExpiryKeepsHeartbeat(m, fired[..|fired| - 1]);
    }
  }

  /** The rest of a run is a run. */
  lemma RestIsRun(m: Manager, events: seq<Event>, trace: seq<Manager>, j: nat)
    requires IsRun(m, events, trace) && j <= |events|
    ensures IsRun(trace[j], events[j..], trace[j..])
  {
    forall k | 0 <= k < |events[j..]|
      ensures CanHappen(trace[j..][k], events[j..][k]) && trace[j..][k + 1] == Happens(trace[j..][k], events[j..][k])
    {
      assert CanHappen(trace[j + k], events[j + k]) && trace[j + k + 1] == Happens(trace[j + k], events[j + k]);
    }
  }

  function Ticks(events: seq<Event>): nat {
    if events == [] then 0 else Ticks(events[..|events| - 1]) + (if events[|events| - 1].TickOf? then 1 else 0)
  }

  ghost predicate Leaves(events: seq<Event>, id: nat) {
    forall k | 0 <= k < |events| :: events[k] != Remove(id) && events[k] != Touch(id)
  }

  lemma EventKeepsSession(m: Manager, e: Event, id: nat)
    requires Inv(m) && CanHappen(m, e) && id in m.sessions && e != Remove(id) && e != Touch(id)
    requires !(e.TickOf? && m.wheel.now == m.sessions[id].touched + m.h)
    ensures id in Happens(m, e).sessions && Happens(m, e).sessions[id].touched == m.sessions[id].touched
    ensures Happens(m, e).h == m.h && Happens(m, e).wheel.now == m.wheel.now + (if e.TickOf? then 1 else 0)
  {
    match e
    case TickOf(fired) =>
      TickTimesOut(m, fired);
      SilentCallbacks(m.wheel, fired, |fired|);
      OwnersAreLapsed(m, fired);
      ExpireSequence(m.(wheel := Ticked(m.wheel, fired, Silent(|fired|))), fired);
    case _ =>
  }

  lemma {:induction false} StaysIdleFrom(m: Manager, events: seq<Event>, trace: seq<Manager>, k: nat, id: nat)
    requires Inv(m) && IsRun(m, events, trace) && Leaves(events, id) && k <= |events|
    requires id in m.sessions && m.wheel.now + Ticks(events[..k]) <= m.sessions[id].touched + m.h
    ensures id in trace[k].sessions && trace[k].sessions[id].touched == m.sessions[id].touched
    ensures trace[k].h == m.h && trace[k].wheel.now == m.wheel.now + Ticks(events[..k])
  {
    if k == 0 {
    } else {
      assert events[..k][..k - 1] == events[..k - 1];
      StaysIdleFrom(m, events, trace, k - 1, id);
      RunKeepsInvFrom(m, events, trace, k - 1);
      EventKeepsSession(trace[k - 1], events[k - 1], id);
    }
  }

  lemma TimesOutFrom(m: Manager, events: seq<Event>, trace: seq<Manager>, id: nat)
    requires Inv(m) && IsRun(m, events, trace) && Leaves(events, id)
    requires id in m.sessions && m.sessions[id].touched == m.wheel.now
    requires events != [] && events[|events| - 1].TickOf? && Ticks(events) == m.h + 1
    ensures var n := |events|;
            && id in trace[n - 1].sessions && id !in trace[n - 1].removed
            && id !in trace[n].sessions && id in trace[n].timedOut && id in trace[n].removed
  {
    var k := |events| - 1;
    assert events[..k + 1] == events;
    StaysIdleFrom(m, events, trace, k, id);
    RunKeepsInvFrom(m, events, trace, k);
    TickTimesOut(trace[k], events[k].fired);
    assert id in Lapsed(trace[k]);
  }

  /** In every run of a new manager a session left alone since step j is still there h ticks after its last touch. */
  lemma IdleSessionSurvives(h: nat, slots: nat, events: seq<Event>, trace: seq<Manager>, j: nat, k: nat, id: nat)
    requires 0 < h < slots && IsRun(Fresh(h, slots), events, trace) && j <= k <= |events|
    requires id in trace[j].sessions && Leaves(events[j..], id)
    requires trace[j].wheel.now + Ticks(events[j..k]) <= trace[j].sessions[id].touched + h
    ensures id in trace[k].sessions && trace[k].sessions[id].touched == trace[j].sessions[id].touched
  {
    RunsKeepInv(h, slots, events, trace, j);
    RestIsRun(Fresh(h, slots), events, trace, j);
    assert events[j..][..k - j] == events[j..k];
    StaysIdleFrom(trace[j], events[j..], trace[j..], k - j, id);
  }

  /** In every run of a new manager a session left alone since its touch at step j times out on exactly the (h+1)-th tick. */
  lemma IdleSessionTimesOut(h: nat, slots: nat, events: seq<Event>, trace: seq<Manager>, j: nat, id: nat)
    requires 0 < h < slots && IsRun(Fresh(h, slots), events, trace) && j < |events|
    requires id in trace[j].sessions && trace[j].sessions[id].touched == trace[j].wheel.now && Leaves(events[j..], id)
    requires events[|events| - 1].TickOf? && Ticks(events[j..]) == h + 1
    ensures var n := |events|;
            && id in trace[n - 1].sessions && id !in trace[n - 1].removed
            && id !in trace[n].sessions && id in trace[n].timedOut && id in trace[n].removed
  {
    RunsKeepInv(h, slots, events, trace, j);
    RestIsRun(Fresh(h, slots), events, trace, j);
    TimesOutFrom(trace[j], events[j..], trace[j..], id);
  }

  // ---- On events alone ----

  function Creates(events: seq<Event>): nat {
    if events == [] then 0 else Creates(events[..|events| - 1]) + (if events[|events| - 1].Create? then 1 else 0)
  }

  lemma TickKeepsCount(m: Manager, fired: seq<nat>)
    ensures Ticking(m, fired).nextId == m.nextId
  {
    ExpiryKeepsCount(m.(wheel := Ticked(m.wheel, fired, Silent(|fired|))), fired);
  }

  lemma {:induction false} ExpiryKeepsCount(m: Manager, fired: seq<nat>)
    ensures ExpiredAll(m, fired).nextId == m.nextId
    decreases |fired|
  {
    if fired == [] {
    } else {
      ExpiryKeepsCount(m, fired[..|fired| - 1]);
    }
  }

  /** The k-th session created has id k. */
  lemma {:induction false} IdsCountUp(h: nat, slots: nat, events: seq<Event>, trace: seq<Manager>, k: nat)
    requires IsRun(Fresh(h, slots), events, trace) && k <= |events|
    ensures trace[k].nextId == Creates(events[..k]) + 1
  {
    if k == 0 {
    } else {
      IdsCountUp(h, slots, events, trace, k - 1);
      assert events[..k][..k - 1] == events[..k - 1];
      if events[k - 1].TickOf? {
        TickKeepsCount(trace[k - 1], events[k - 1].fired);
      }
    }
  }

  /** Event j creates session `id`, or touches it while it is there. */
  predicate ShowsLife(events: seq<Event>, trace: seq<Manager>, j: nat, id: nat)
    requires |trace| == |events| + 1 && j < |events|
  {
    || (events[j] == Create && id == Creates(events[..j]) + 1)
    || (events[j] == Touch(id) && id in trace[j].sessions)
  }

  lemma LifeStartsWait(h: nat, slots: nat, events: seq<Event>, trace: seq<Manager>, j: nat, id: nat)
    requires 0 < h < slots && IsRun(Fresh(h, slots), events, trace) && j < |events| && ShowsLife(events, trace, j, id)
    ensures Inv(trace[j + 1]) && trace[j + 1].h == h
    ensures id in trace[j + 1].sessions && trace[j + 1].sessions[id].touched == trace[j + 1].wheel.now
  {
    RunsKeepInv(h, slots, events, trace, j);
    RunsKeepInv(h, slots, events, trace, j + 1);
    IdsCountUp(h, slots, events, trace, j);
  }

  /** A stretch of a run is a run. */
  lemma SliceIsRun(m: Manager, events: seq<Event>, trace: seq<Manager>, i: nat, k: nat)
    requires IsRun(m, events, trace) && i <= k <= |events|
    ensures IsRun(trace[i], events[i..k], trace[i..k + 1])
  {
    var es, ts := events[i..k], trace[i..k + 1];
    forall x | 0 <= x < |es| ensures CanHappen(ts[x], es[x]) && ts[x + 1] == Happens(ts[x], es[x]) {
      assert CanHappen(trace[i + x], events[i + x]) && trace[i + x + 1] == Happens(trace[i + x], events[i + x]);
    }
  }

  /** Created or touched and then left alone, a session is there through h more ticks, whatever happens to others. */
  lemma SilentSessionSurvives(h: nat, slots: nat, events: seq<Event>, trace: seq<Manager>, j: nat, k: nat, id: nat)
    requires 0 < h < slots && IsRun(Fresh(h, slots), events, trace) && j < k <= |events|
    requires ShowsLife(events, trace, j, id) && Leaves(events[j + 1..k], id) && Ticks(events[j + 1..k]) <= h
    ensures id in trace[k].sessions && id !in trace[k].removed
  {
    LifeStartsWait(h, slots, events, trace, j, id);
    SliceIsRun(Fresh(h, slots), events, trace, j + 1, k);
    var es := events[j + 1..k];
    assert es[..|es|] == es;
    StaysIdleFrom(trace[j + 1], es, trace[j + 1..k + 1], |es|, id);
    RunsKeepInv(h, slots, events, trace, k);
  }

  /** And the (h+1)-th tick times it out. */
  lemma SilentSessionTimesOut(h: nat, slots: nat, events: seq<Event>, trace: seq<Manager>, j: nat, k: nat, id: nat)
    requires 0 < h < slots && IsRun(Fresh(h, slots), events, trace) && j + 1 < k <= |events|
    requires ShowsLife(events, trace, j, id) && Leaves(events[j + 1..k], id)
    requires events[k - 1].TickOf? && Ticks(events[j + 1..k]) == h + 1
    ensures id in trace[k - 1].sessions && id !in trace[k].sessions
    ensures id in trace[k].timedOut && id in trace[k].removed
  {
    LifeStartsWait(h, slots, events, trace, j, id);
    SliceIsRun(Fresh(h, slots), events, trace, j + 1, k);
    TimesOutFrom(trace[j + 1], events[j + 1..k], trace[j + 1..k + 1], id);
  }

  /** An id that was issued and is no longer there. */
  predicate Gone(m: Manager, id: nat) {
    1 <= id < m.nextId && id !in m.sessions
  }

  lemma GoneStays(m: Manager, e: Event, id: nat)
    requires Inv(m) && CanHappen(m, e) && Gone(m, id)
    ensures Gone(Happens(m, e), id) && (id in Happens(m, e).timedOut <==> id in m.timedOut)
  {
    if e.TickOf? {
      TickTimesOut(m, e.fired);
      TickKeepsCount(m, e.fired);
      var n := Happens(m, e);
      var ids :| NoDuplicates(ids) && ToSet(ids) == Lapsed(m) && n.timedOut == m.timedOut + ids;
      assert id in ids <==> id in ToSet(ids);
    }
  }

  /** Nobody comes back, and nobody is timed out after it left. */
  lemma {:induction false} GoneForever(
    h: nat, slots: nat, events: seq<Event>, trace: seq<Manager>, j: nat, k: nat, id: nat)
    requires 0 < h < slots && IsRun(Fresh(h, slots), events, trace) && j <= k <= |events| && Gone(trace[j], id)
    ensures Gone(trace[k], id) && (id in trace[k].timedOut <==> id in trace[j].timedOut)
    decreases k
  {
    if k == j {
    } else {
      GoneForever(h, slots, events, trace, j, k - 1, id);
      RunsKeepInv(h, slots, events, trace, k - 1);
      assert CanHappen(trace[k - 1], events[k - 1]) && trace[k] == Happens(trace[k - 1], events[k - 1]);
      GoneStays(trace[k - 1], events[k - 1], id);
    }
  }

  lemma LiveIsNotTimedOut(m: Manager, e: Event, id: nat)
    requires Inv(m) && CanHappen(m, e) && (id in m.timedOut ==> id in m.removed)
    ensures id in Happens(m, e).timedOut ==> id in Happens(m, e).removed
  {
    if e.TickOf? {
      TickTimesOut(m, e.fired);
    }
  }

  lemma {:induction false} TimedOutWasRemoved(
    h: nat, slots: nat, events: seq<Event>, trace: seq<Manager>, k: nat, id: nat)
    requires 0 < h < slots && IsRun(Fresh(h, slots), events, trace) && k <= |events|
    ensures id in trace[k].timedOut ==> id in trace[k].removed
  {
    if k == 0 {
    } else {
      TimedOutWasRemoved(h, slots, events, trace, k - 1, id);
      RunsKeepInv(h, slots, events, trace, k - 1);
      assert CanHappen(trace[k - 1], events[k - 1]) && trace[k] == Happens(trace[k - 1], events[k - 1]);
      LiveIsNotTimedOut(trace[k - 1], events[k - 1], id);
    }
  }

  /** A removed session is gone for good, is notified as removed exactly once and is never timed out. */
  lemma RemoveIsFinal(h: nat, slots: nat, events: seq<Event>, trace: seq<Manager>, j: nat, k: nat, id: nat)
    requires 0 < h < slots && IsRun(Fresh(h, slots), events, trace) && j < k <= |events|
    requires events[j] == Remove(id) && id in trace[j].sessions
    ensures id !in trace[k].sessions && id !in trace[k].timedOut
    ensures id in trace[k].removed && NoDuplicates(trace[k].removed)
  {
    RunsKeepInv(h, slots, events, trace, j);
    RunsKeepInv(h, slots, events, trace, k);
    TimedOutWasRemoved(h, slots, events, trace, j, id);
    assert trace[j + 1] == Happens(trace[j], events[j]);
    GoneForever(h, slots, events, trace, j + 1, k, id);
  }

  /** The session an event is about, if it is about one. */
  predicate About(m: Manager, e: Event, id: nat) {
    (e == Create && id == m.nextId) || e == Remove(id) || e == Touch(id)
  }

  /** Creating, removing or touching one session changes nothing about the others. */
  lemma OthersUnchanged(m: Manager, e: Event, id: nat)
    requires Inv(m) && About(m, e, id)
    ensures var n := Happens(m, e);
            && n.sessions - {id} == m.sessions - {id} && n.timedOut == m.timedOut && n.wheel.now == m.wheel.now
            && (forall x | x in m.sessions && x != id ::
                  && m.sessions[x].timer in m.wheel.deadline && m.sessions[x].timer in n.wheel.deadline
                  && n.wheel.deadline[m.sessions[x].timer] == m.wheel.deadline[m.sessions[x].timer])
            && n.removed == m.removed + (if e == Remove(id) && id in m.sessions then [id] else [])
  {
    assert m.removed + [] == m.removed;
  }

  // ---- The simple meaning ----

  /**
   What a manager is for, without timers: how many ticks ago each session was last created or touched. A session whose
   age has reached the limit leaves at the next tick; without a limit nobody does.
   */
  function Ages(limit: Option<nat>, events: seq<Event>): map<nat, nat> {
    if events == [] then map[]
    else
      var before := events[..|events| - 1];
      NextAges(limit, Ages(limit, before), Creates(before) + 1, events[|events| - 1])
  }

  /** The ages after one more event; `newcomer` is the id a creation hands out. */
  function NextAges(limit: Option<nat>, ages: map<nat, nat>, newcomer: nat, e: Event): map<nat, nat> {
    match e
    case Create => ages[newcomer := 0]
    case Remove(id) => ages - {id}
    case Touch(id) => if id in ages then ages[id := 0] else ages
    case TickOf(_) => map id | id in ages && (limit.Some? ==> ages[id] < limit.value) :: ages[id] + 1
  }

  /** The limit a manager works with: none when the heartbeat is off or does not fit the wheel. */
  function LimitOf(h: nat, slots: nat): Option<nat> {
    if 0 < h < slots then Some(h) else None
  }

  ghost predicate Aged(m: Manager, ages: map<nat, nat>) {
    && (forall id :: id in m.sessions <==> id in ages)
    && (forall id | id in m.sessions && id in ages :: m.sessions[id].touched + ages[id] == m.wheel.now)
  }

  lemma StepAges(m: Manager, e: Event, ages: map<nat, nat>)
    requires Inv(m) && CanHappen(m, e) && Aged(m, ages)
    ensures Aged(Happens(m, e), NextAges(Some(m.h), ages, m.nextId, e))
  {
    if e.TickOf? {
      TickTimesOut(m, e.fired);
    }
  }

  lemma AgesStep(limit: Option<nat>, events: seq<Event>, k: nat)
    requires 0 < k <= |events|
    ensures Ages(limit, events[..k]) ==
            NextAges(limit, Ages(limit, events[..k - 1]), Creates(events[..k - 1]) + 1, events[k - 1])
  {
    assert events[..k][..k - 1] == events[..k - 1];
  }

  /** What a step of a run of a new manager starts from and leads to. */
  lemma StepOfRun(h: nat, slots: nat, events: seq<Event>, trace: seq<Manager>, k: nat)
    requires 0 < h < slots && IsRun(Fresh(h, slots), events, trace) && k < |events|
    ensures Inv(trace[k]) && trace[k].h == h && trace[k].nextId == Creates(events[..k]) + 1
    ensures CanHappen(trace[k], events[k]) && trace[k + 1] == Happens(trace[k], events[k])
  {
    RunsKeepInv(h, slots, events, trace, k);
    IdsCountUp(h, slots, events, trace, k);
  }

  lemma {:induction false} RunsAge(h: nat, slots: nat, events: seq<Event>, trace: seq<Manager>, k: nat)
    requires 0 < h < slots && IsRun(Fresh(h, slots), events, trace) && k <= |events|
    ensures Aged(trace[k], Ages(Some(h), events[..k]))
  {
    if k == 0 {
    } else {
      RunsAge(h, slots, events, trace, k - 1);
      StepOfRun(h, slots, events, trace, k - 1);
      AgeOn(trace[k - 1], events, k, trace[k]);
    }
  }

  lemma AgeOn(m: Manager, events: seq<Event>, k: nat, n: Manager)
    requires 0 < k <= |events| && Inv(m) && m.nextId == Creates(events[..k - 1]) + 1
    requires CanHappen(m, events[k - 1]) && n == Happens(m, events[k - 1])
    requires Aged(m, Ages(Some(m.h), events[..k - 1]))
    ensures Aged(n, Ages(Some(m.h), events[..k]))
  {
    AgesStep(Some(m.h), events, k);
    StepAges(m, events[k - 1], Ages(Some(m.h), events[..k - 1]));
  }

  /** A manager whose heartbeat is off: no timer anywhere. */
  ghost predicate Untimed(m: Manager, ids: set<nat>) {
    && !(0 < m.h < m.wheel.slots) && m.wheel.deadline == map[] && m.byTimer == map[] && m.timedOut == []
    && m.sessions.Keys == ids && forall id | id in m.sessions :: m.sessions[id].timer == 0
  }

  lemma StepUntimed(m: Manager, e: Event, ages: map<nat, nat>)
    requires Untimed(m, ages.Keys) && CanHappen(m, e)
    ensures Untimed(Happens(m, e), NextAges(None, ages, m.nextId, e).Keys)
  {
    if e.TickOf? {
      if e.fired != [] {
        assert e.fired[0] in e.fired;
      }
      SilentCallbacks(m.wheel, [], 0);
    }
  }

  lemma {:induction false} RunsUntimed(h: nat, slots: nat, events: seq<Event>, trace: seq<Manager>, k: nat)
    requires !(0 < h < slots) && IsRun(Fresh(h, slots), events, trace) && k <= |events|
    ensures Untimed(trace[k], Ages(None, events[..k]).Keys)
  {
    if k == 0 {
    } else {
      RunsUntimed(h, slots, events, trace, k - 1);
      IdsCountUp(h, slots, events, trace, k - 1);
      AgesStep(None, events, k);
      assert CanHappen(trace[k - 1], events[k - 1]) && trace[k] == Happens(trace[k - 1], events[k - 1]);
      StepUntimed(trace[k - 1], events[k - 1], Ages(None, events[..k - 1]));
    }
  }

  /** In every run of every manager exactly those sessions exist that the simple meaning says. */
  lemma SessionsAreTheAged(h: nat, slots: nat, events: seq<Event>, trace: seq<Manager>, k: nat)
    requires IsRun(Fresh(h, slots), events, trace) && k <= |events|
    ensures trace[k].sessions.Keys == Ages(LimitOf(h, slots), events[..k]).Keys
    ensures LimitOf(h, slots).None? ==> trace[k].timedOut == []
  {
    if 0 < h < slots {
      RunsAge(h, slots, events, trace, k);
    } else {
      RunsUntimed(h, slots, events, trace, k);
    }
  }
}

module SessionManager {
  import opened Wrappers
  import opened Bits
  import opened TimerSpec
  import opened SessionSpec
  import opened TimingWheel

  class Manager {
    const heartbeat: nat
    const timers: IntrusiveWheel
    var sessions: map<nat, Session>
    var timerToSession: map<nat, nat>
    var nextId: nat
    var removed: seq<nat>
    var timedOut: seq<nat>

    ghost predicate Valid()
      reads this, timers, timers.lists, timers.lists.linked, timers.Live()
    {
      timers.Valid({})
    }

    ghost function View(): SessionSpec.Manager
      reads this, timers, timers.Live()
    {
      SessionSpec.Manager(heartbeat, timers.View(), sessions, timerToSession, nextId, removed, timedOut)
    }

    constructor (heartbeat: nat, bits: nat)
      ensures Valid() && fresh(timers) && fresh(timers.lists) && timers.lists.linked == {}
      ensures View() == Fresh(heartbeat, Pow2(bits))
    {
      this.heartbeat := heartbeat;
      timers := new IntrusiveWheel(bits);
      sessions, timerToSession, nextId, removed, timedOut := map[], map[], 1, [], [];
    }

    /** `create_session`; `ok` is false when the heartbeat is out of the wheel's range. */
    method CreateSession() returns (id: nat, ok: bool)
      requires Valid()
      modifies this, timers, timers.lists, timers.lists.linked
      ensures Valid() && fresh(timers.lists.linked - old(timers.lists.linked))
      ensures View() == Created(old(View()))
      ensures id == old(nextId) && (ok <==> heartbeat < Pow2(timers.bits))
    {
      id := AddSession();
      ok := true;
      if heartbeat > 0 {
        ok := SetTimer(id);
      } else {
        PowerIsPositive(timers.bits);
      }
    }

    method AddSession() returns (id: nat)
      requires Valid()
      modifies `nextId, `sessions
      ensures Valid() && timers.View() == old(timers.View())
      ensures id == old(nextId) && nextId == id + 1 && sessions == old(sessions)[id := Session(0, timers.currentTick)]
    {
      id := nextId;
      nextId, sessions := nextId + 1, sessions[id := Session(0, timers.currentTick)];
      timers.Untouched({});
    }

    /** Schedule the heartbeat and record it in the session and in the reverse index. */
    method SetTimer(id: nat) returns (ok: bool)
      requires Valid() && id in sessions
      modifies this, timers, timers.lists, timers.lists.linked
      ensures Valid() && fresh(timers.lists.linked - old(timers.lists.linked))
      ensures ok <==> heartbeat < Pow2(timers.bits)
      ensures timers.View() == Scheduled(old(timers.View()), heartbeat)
      ensures var t := FreshId(old(timers.View()));
              && timerToSession == (if ok then old(timerToSession)[t := id] else old(timerToSession))
              && sessions == (if ok then old(sessions)[id := old(sessions)[id].(timer := t)] else old(sessions))
      ensures nextId == old(nextId) && removed == old(removed) && timedOut == old(timedOut)
    {
      var t;
      t, ok := timers.Schedule(heartbeat, {});
      if ok {
        label scheduled:
        AddIndexes(id, t);
        timers.Untouched@scheduled({});
      }
    }

    method AddIndexes(id: nat, t: nat)
      requires id in sessions
      modifies `timerToSession, `sessions
      ensures timerToSession == old(timerToSession)[t := id]
      ensures sessions == old(sessions)[id := old(sessions)[id].(timer := t)]
    {
      timerToSession := timerToSession[t := id];
      sessions := sessions[id := sessions[id].(timer := t)];
    }

    /** `remove_session`: cancel the timer, drop both index entries, notify, erase. */
    method RemoveSession(id: nat)
      requires Valid()
      modifies this, timers, timers.lists, timers.lists.linked
      ensures Valid() && fresh(timers.lists.linked - old(timers.lists.linked))
      ensures View() == Removed(old(View()), id)
    {
      if id !in sessions {
        return;
      }
      var t := sessions[id].timer;
      if t != 0 {
        timers.Cancel(t, {});
      }
      label cancelled:
      DropIndexes(id, t);
      timers.Untouched@cancelled({});
    }

    method DropIndexes(id: nat, t: nat)
      modifies `timerToSession, `removed, `sessions
      ensures timerToSession == (if t != 0 then old(timerToSession) - {t} else old(timerToSession))
      ensures removed == old(removed) + [id] && sessions == old(sessions) - {id}
    {
      if t != 0 {
        timerToSession := timerToSession - {t};
      }
      removed := removed + [id];
      sessions := sessions - {id};
    }

    /** `touch_session`: restart the heartbeat of a session that has one. */
    method TouchSession(id: nat)
      requires Valid()
      modifies this, timers, timers.lists, timers.lists.linked
      ensures Valid() && fresh(timers.lists.linked - old(timers.lists.linked))
      ensures View() == Touched(old(View()), id)
    {
      if heartbeat == 0 || id !in sessions || sessions[id].timer == 0 {
        return;
      }
      var ok := timers.Reschedule(sessions[id].timer, heartbeat, {});
      sessions := sessions[id := sessions[id].(touched := timers.currentTick)];
    }

    /** `on_timer_expire`. */
    method OnTimerExpire(t: nat)
      modifies this
      ensures View() == Expired(old(View()), t) && unchanged(this`nextId)
    {
      if t !in timerToSession {
        return;
      }
      var id := timerToSession[t];
      timerToSession := timerToSession - {t};
      if id !in sessions {
        return;
      }
      removed := removed + [id];
      sessions := sessions - {id};
      timedOut := timedOut + [id];
    }

    /** `tick`: advance the wheel; every expired entry goes through `OnTimerExpire`. */
    method Tick() returns (fired: seq<nat>)
      requires Valid()
      modifies this, timers, timers.lists, timers.lists.linked
      ensures Valid() && fresh(timers.lists.linked - old(timers.lists.linked))
      ensures FiresExactlyDue(old(View()).wheel, fired)
      ensures View() == Ticking(old(View()), fired)
    {
      fired := timers.Tick(SayNothing);
      NothingSaid(|fired|);
      ghost var mid := View();
      label ticked:
      for k := 0 to |fired|
        modifies this
        invariant View() == ExpiredAll(mid, fired[..k])
      {
        assert fired[..k + 1][..k] == fired[..k];
        OnTimerExpire(fired[k]);
      }
      assert fired[..|fired|] == fired;
      timers.Untouched@ticked({});
    }
  }

  lemma PowerIsPositive(k: nat)
    ensures 0 < Pow2(k)
  {
  }

  /** An expiry callback that leaves the wheel alone. */
  function SayNothing(k: nat): seq<Op> {
    []
  }

  lemma {:induction false} NothingSaid(n: nat)
    ensures Replies(SayNothing, n) == Silent(n)
  {
    if n == 0 {
    } else {
      NothingSaid(n - 1);
    }
  }
}
