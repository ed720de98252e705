/**
 Progress of the drain protocol, counted in steps of the target core. A drain call ends after a bounded number of them
 whatever the producers do, so fairness counted in calls is fairness counted in steps; and a target that runs alone
 settles, with everything published dispatched unless a producer has yet to queue the handler.
 */
module DrainProgress {
  import opened Bits
  import opened Wrappers
  import opened DrainProtocol

  // ---- A drain call ends ----

  predicate OfTarget(a: Action) {
    a.StartHandler? || a.Handler?
  }

  function TargetSteps(acts: seq<Action>): (n: nat)
    ensures n <= |acts|
  {
    if acts == [] then 0
    else TargetSteps(acts[..|acts| - 1]) + (if OfTarget(acts[|acts| - 1]) then 1 else 0)
  }

  /** Steps from the start of a handler to the end of its drain call, at most. */
  function LoopSteps(c: Config): nat {
    3 * c.n + 4 * c.limit
  }

  /** Target steps in which at least one drain call completes. */
  function CallSteps(c: Config): nat {
    LoopSteps(c) + 2 * c.n + 5
  }

  function Left(total: nat, done: nat): nat {
    if done < total then total - done else 0
  }

  /** Target steps until the next drain call completes, at most. */
  function StepsLeft(c: Config, h: HandlerPc): int {
    match h
    case Outer(_, offset, total) => 3 * Left(c.n, offset) + 4 * Left(c.limit, total)
    case Inner(_, offset, total, _) => 3 * Left(c.n, offset) + 4 * Left(c.limit, total) - 1
    case SawPublished(_, offset, total, _, _) => 3 * Left(c.n, offset) + 4 * Left(c.limit, total) - 2
    case Took(_, offset, total, _, _) => 3 * Left(c.n, offset) + 4 * Left(c.limit, total) - 3
    case Dispatching(_, offset, total, _, _) => 3 * Left(c.n, offset) + 4 * Left(c.limit, total) - 4
    case Clearing => LoopSteps(c) + 2 * c.n + 4
    case Recheck(src) => LoopSteps(c) + 2 * Left(c.n, src) + 3
    case RecheckSaw(src, _) => LoopSteps(c) + 2 * Left(c.n, src) + 2
    case FoundWork => LoopSteps(c) + 3
    case WonFlagAgain => LoopSteps(c) + 2
    case NotRunning => LoopSteps(c) + 1
  }

  /** The handler's local variables are in range. */
  predicate InRange(c: Config, h: HandlerPc) {
    TotalOk(c, h) && (HasSource(h) ==> h.offset < c.n) && (h.RecheckSaw? ==> h.src < c.n)
  }

  lemma StepsLeftBounds(c: Config, h: HandlerPc)
    requires InRange(c, h)
    ensures 0 <= StepsLeft(c, h) < CallSteps(c)
  {
  }

  /** A target step brings the end of a drain call nearer, or is that end. */
  predicate Counted(c: Config, s: State, t: State) {
    && InRange(c, t.h)
    && (if t.h.Clearing? then t.drains == s.drains + 1
        else t.drains == s.drains && StepsLeft(c, t.h) < StepsLeft(c, s.h))
  }

  lemma OuterCounts(c: Config, s: State)
    requires Shape(c, s) && s.h.Outer? && InRange(c, s.h)
    ensures Counted(c, s, HandlerStep(c, s))
  {
  }

  lemma SourceCounts(c: Config, s: State)
    requires Shape(c, s) && HasSource(s.h) && InRange(c, s.h)
    ensures Counted(c, s, HandlerStep(c, s))
  {
    match s.h
    case Inner(_, _, _, _) =>
    case SawPublished(_, _, _, _, _) =>
    case Took(_, _, _, _, _) =>
    case Dispatching(_, _, _, _, _) =>
  }

  lemma RecheckCounts(c: Config, s: State)
    requires Shape(c, s) && !s.h.NotRunning? && !s.h.Outer? && !HasSource(s.h) && InRange(c, s.h)
    ensures Counted(c, s, HandlerStep(c, s))
  {
  }

  lemma TargetStepCounts(c: Config, s: State, a: Action)
    requires Shape(c, s) && Enabled(c, s, a) && OfTarget(a) && InRange(c, s.h)
    ensures Counted(c, s, Apply(c, s, a))
  {
    if a.Handler? {
      if s.h.Outer? {
        OuterCounts(c, s);
      } else if HasSource(s.h) {
        SourceCounts(c, s);
      } else {
        RecheckCounts(c, s);
      }
    }
  }

  lemma OthersDoNotCount(c: Config, s: State, a: Action)
    requires Shape(c, s) && Enabled(c, s, a) && !OfTarget(a)
    ensures Apply(c, s, a).h == s.h && Apply(c, s, a).drains == s.drains
  {
  }

  function StepsForCalls(c: Config, k: nat): (r: nat) {
    MulMono(0, k, CallSteps(c));
    k * CallSteps(c)
  }

  /** Steps and calls from s to t add up. */
  ghost predicate Accounted(c: Config, s: State, steps: nat, t: State) {
    && InRange(c, t.h) && s.drains <= t.drains
    && steps + StepsLeft(c, t.h) <= StepsForCalls(c, t.drains - s.drains) + StepsLeft(c, s.h)
  }

  lemma CountedAddsUp(c: Config, s: State, steps: nat, p: State, t: State)
    requires Accounted(c, s, steps, p) && Counted(c, p, t)
    ensures Accounted(c, s, steps + 1, t)
  {
    StepsLeftBounds(c, p.h);
    StepsLeftBounds(c, t.h);
    OneMoreTimes(p.drains - s.drains, CallSteps(c));
  }

  lemma StandingAddsUp(c: Config, s: State, steps: nat, p: State, t: State)
    requires Accounted(c, s, steps, p) && t.h == p.h && t.drains == p.drains
    ensures Accounted(c, s, steps, t)
  {
  }

  lemma OneMoreTimes(k: int, m: int)
    ensures (k + 1) * m == k * m + m
  {
  }

  /** In every run, whatever the producers do, each `CallSteps` steps of the target complete a drain call. */
  lemma {:induction false} CallsComplete(c: Config, s: State, acts: seq<Action>, t: State)
    requires InRange(c, s.h) && Exec(c, s, acts) == Some(t)
    ensures Accounted(c, s, TargetSteps(acts), t)
    decreases |acts|
  {
    if acts == [] {
    } else {
      var p, a := Exec(c, s, acts[..|acts| - 1]).value, acts[|acts| - 1];
      CallsComplete(c, s, acts[..|acts| - 1], p);
      if OfTarget(a) {
        TargetStepCounts(c, p, a);
        CountedAddsUp(c, s, TargetSteps(acts[..|acts| - 1]), p, t);
      } else {
        OthersDoNotCount(c, p, a);
        StandingAddsUp(c, s, TargetSteps(acts), p, t);
      }
    }
  }

  /** The same from any moment of a run from the start: k * CallSteps steps of the target complete k calls. */
  lemma DrainCallsComplete(
    c: Config, s0: State, before: seq<Action>, s1: State, after: seq<Action>, s2: State, k: nat)
    requires Reachable(c, s0, before) && Exec(c, s0, before) == Some(s1) && Exec(c, s1, after) == Some(s2)
    requires TargetSteps(after) >= StepsForCalls(c, k)
    ensures s2.drains >= s1.drains + k
  {
    CallsComplete(c, s0, before, s1);
    CallsComplete(c, s1, after, s2);
    EnoughSteps(c, s1, TargetSteps(after), s2, k);
  }

  lemma EnoughSteps(c: Config, s: State, steps: nat, t: State, k: nat)
    requires InRange(c, s.h) && Accounted(c, s, steps, t) && steps >= StepsForCalls(c, k)
    ensures t.drains >= s.drains + k
  {
    StepsLeftBounds(c, s.h);
    StepsLeftBounds(c, t.h);
    StepsMakeCalls(steps, k, t.drains - s.drains, CallSteps(c));
  }

  lemma StepsMakeCalls(steps: nat, k: nat, calls: nat, m: nat)
    requires k * m <= steps < calls * m + m
    ensures k <= calls
  {
    if k > calls {
      MulMono(calls + 1, k, m);
      OneMoreTimes(calls, m);
    }
  }

  // ---- One drain call ----

  /** Messages dispatched from all sources together. */
  function Sum(lists: seq<seq<Message>>): nat {
    if lists == [] then 0 else Sum(lists[..|lists| - 1]) + |lists[|lists| - 1]|
  }

  lemma {:induction false} SumGrows(lists: seq<seq<Message>>, i: nat, item: Message)
    requires i < |lists|
    ensures Sum(lists[i := lists[i] + [item]]) == Sum(lists) + 1
    decreases |lists|
  {
    var n := |lists| - 1;
    var more := lists[i := lists[i] + [item]];
    if i == n {
      assert more[..n] == lists[..n];
    } else {
      SumGrows(lists[..n], i, item);
      assert more[..n] == lists[..n][i := lists[i] + [item]];
    }
  }

  /** The place of source i in a round that starts at `start`. */
  function Turn(c: Config, start: nat, i: nat): nat
    requires start < c.n && i < c.n
  {
    Distance(c, start, i)
  }

  /** A call that took `total` messages so far is past source i, which held m messages when the call began. */
  ghost predicate ServedOk(c: Config, s: State, i: nat, m: nat, total: nat, offset: nat, start: nat)
    requires Shape(c, s) && start < c.n && i < c.n
  {
    i != c.self && Turn(c, start, i) < offset ==> m <= |s.dispatched[i]| || total >= c.limit
  }

  /** The drain call begun in s1 is still going on in s. */
  ghost predicate OnCall(c: Config, s1: State, s: State)
    requires Shape(c, s1)
  {
    && Shape(c, s) && (s.h.Outer? || HasSource(s.h)) && s.h.start < c.n && s.h.start == s1.rotate
    && Sum(s.dispatched) == Sum(s1.dispatched) + s.h.total
    && (forall i: nat | i < c.n ::
          ServedOk(c, s, i, s1.ring[i].published, s.h.total, s.h.offset, s.h.start))
    && (forall i: nat | i < c.n :: s1.ring[i].published <= s.ring[i].published)
    && (s.h.SawPublished? ==> s1.ring[s.h.src].published <= s.h.pub)
  }

  /** What a completed call has done: a full batch, or everything that had been published when it began. */
  ghost predicate Thorough(c: Config, s1: State, s: State)
    requires Shape(c, s1)
  {
    && Shape(c, s)
    && (|| Sum(s.dispatched) >= Sum(s1.dispatched) + c.limit
        || forall i: nat | i < c.n && i != c.self :: s1.ring[i].published <= |s.dispatched[i]|)
  }

  lemma TurnOf(c: Config, start: nat, offset: nat, i: nat)
    requires start < c.n && offset < c.n && i < c.n && i == (start + offset) % c.n
    ensures Turn(c, start, i) == offset
  {
    if start + offset < c.n {
      SmallMod(start + offset, c.n);
    } else {
      SmallMod(start + offset - c.n, c.n);
      ModAddPeriod(start + offset - c.n, c.n);
    }
  }

  lemma TurnIs(c: Config, start: nat, i: nat)
    requires start < c.n && i < c.n
    ensures Turn(c, start, i) < c.n && (start + Turn(c, start, i)) % c.n == i
  {
    if i >= start {
      SmallMod(i, c.n);
    } else {
      ModAddPeriod(i, c.n);
      SmallMod(i, c.n);
    }
  }

  /** Leaving a source: its turn is over, and what it held is dispatched unless the batch is full. */
  lemma TurnEnds(c: Config, s1: State, s: State, t: State, i: nat)
    requires Shape(c, s1) && OnCall(c, s1, s) && Inv(c, s) && Shape(c, t) && i < c.n
    requires s.h.offset < c.n && t.h.Outer? && t.dispatched == s.dispatched
    requires t.h.start == s.h.start && t.h.offset == s.h.offset + 1 && t.h.total == s.h.total
    requires var src := (s.h.start + s.h.offset) % c.n;
             src == c.self || s.h.total >= c.limit || s1.ring[src].published <= |s.dispatched[src]|
    ensures ServedOk(c, t, i, s1.ring[i].published, t.h.total, t.h.offset, t.h.start)
  {
    assert ServedOk(c, s, i, s1.ring[i].published, s.h.total, s.h.offset, s.h.start);
    if Turn(c, s.h.start, i) == s.h.offset {
      TurnIs(c, s.h.start, i);
    }
  }

  /** A step inside the loop that stays with its source and dispatches nothing. */
  lemma SameTurn(c: Config, s1: State, s: State, t: State)
    requires Shape(c, s1) && OnCall(c, s1, s) && Shape(c, t) && t.dispatched == s.dispatched
    requires (t.h.Outer? || HasSource(t.h)) && t.h.start == s.h.start && t.h.offset == s.h.offset
    requires t.h.total == s.h.total
    requires forall i: nat | i < c.n :: s.ring[i].published <= t.ring[i].published
    requires t.h.SawPublished? ==> s1.ring[t.h.src].published <= t.h.pub
    ensures OnCall(c, s1, t)
  {
    forall i: nat | i < c.n
      ensures ServedOk(c, t, i, s1.ring[i].published, t.h.total, t.h.offset, t.h.start)
    {
      assert ServedOk(c, s, i, s1.ring[i].published, s.h.total, s.h.offset, s.h.start);
    }
  }

  lemma HandlerPublishes(c: Config, s: State)
    requires Shape(c, s) && !s.h.NotRunning?
    ensures Shape(c, HandlerStep(c, s)) ==>
              forall i: nat | i < c.n :: HandlerStep(c, s).ring[i].published == s.ring[i].published
  {
    if Shape(c, HandlerStep(c, s)) {
      forall i: nat | i < c.n ensures HandlerStep(c, s).ring[i].published == s.ring[i].published {
        HandlerLeavesPublished(c, s, i);
      }
    }
  }

  /** A call still at its start, or at the end of a turn. */
  lemma OuterOnCall(c: Config, s1: State, s: State)
    requires Shape(c, s1) && OnCall(c, s1, s) && Inv(c, s) && s.h.Outer? && Shape(c, HandlerStep(c, s))
    ensures var t := HandlerStep(c, s);
            if t.h.Clearing? then Thorough(c, s1, t) else OnCall(c, s1, t)
  {
    var t := HandlerStep(c, s);
    HandlerPublishes(c, s);
    if t.h.Clearing? {
      OuterDone(c, s1, s);
    } else if t.h.Inner? {
      SameTurn(c, s1, s, t);
    } else {
      forall i: nat | i < c.n ensures ServedOk(c, t, i, s1.ring[i].published, t.h.total, t.h.offset, t.h.start) {
        TurnEnds(c, s1, s, t, i);
      }
    }
  }

  lemma OuterDone(c: Config, s1: State, s: State)
    requires Shape(c, s1) && OnCall(c, s1, s) && s.h.Outer? && (s.h.offset >= c.n || s.h.total >= c.limit)
    ensures var t := HandlerStep(c, s); Shape(c, t) && t.h.Clearing? ==> Thorough(c, s1, t)
  {
    var t := HandlerStep(c, s);
    if Shape(c, t) && t.h.Clearing? && s.h.total < c.limit {
      forall i: nat | i < c.n && i != c.self ensures s1.ring[i].published <= |t.dispatched[i]| {
        assert ServedOk(c, s, i, s1.ring[i].published, s.h.total, s.h.offset, s.h.start);
        TurnIs(c, s.h.start, i);
      }
    }
  }

  lemma SourceOnCall(c: Config, s1: State, s: State)
    requires Shape(c, s1) && OnCall(c, s1, s) && Inv(c, s) && HasSource(s.h) && Shape(c, HandlerStep(c, s))
    ensures OnCall(c, s1, HandlerStep(c, s))
  {
    var t := HandlerStep(c, s);
    HandlerPublishes(c, s);
    assert RingOk(c, s, s.h.src);
    if s.h.Dispatching? {
      DispatchOnCall(c, s1, s);
    } else if t.h.Outer? {
      forall i: nat | i < c.n ensures ServedOk(c, t, i, s1.ring[i].published, t.h.total, t.h.offset, t.h.start) {
        TurnEnds(c, s1, s, t, i);
      }
    } else {
      SameTurn(c, s1, s, t);
    }
  }

  lemma DispatchOnCall(c: Config, s1: State, s: State)
    requires Shape(c, s1) && OnCall(c, s1, s) && s.h.Dispatching? && Shape(c, HandlerStep(c, s))
    ensures OnCall(c, s1, HandlerStep(c, s))
  {
    var t := HandlerStep(c, s);
    HandlerPublishes(c, s);
    SumGrows(s.dispatched, s.h.src, s.h.item);
    forall i: nat | i < c.n ensures ServedOk(c, t, i, s1.ring[i].published, t.h.total, t.h.offset, t.h.start) {
      assert ServedOk(c, s, i, s1.ring[i].published, s.h.total, s.h.offset, s.h.start);
    }
  }

  lemma ProducerOnCall(c: Config, s1: State, s: State, a: Action)
    requires Shape(c, s1) && OnCall(c, s1, s) && Inv(c, s) && Enabled(c, s, a) && !OfTarget(a)
    requires Shape(c, Apply(c, s, a))
    ensures OnCall(c, s1, Apply(c, s, a))
  {
    var t := Apply(c, s, a);
    forall i: nat | i < c.n ensures s.ring[i].published <= t.ring[i].published && t.dispatched == s.dispatched {
      assert RingOk(c, s, i);
      if a.Producer? {
        ProducerKeepsRing(c, s, a.src, i);
      }
    }
    SameTurn(c, s1, s, t);
  }

  /** Where a run stands that began with a drain call. */
  ghost predicate AfterStart(c: Config, s1: State, s: State)
    requires Shape(c, s1)
  {
    && s1.drains <= s.drains
    && (s.drains == s1.drains ==> OnCall(c, s1, s))
    && (s.drains == s1.drains + 1 && s.h.Clearing? ==> Thorough(c, s1, s))
  }

  lemma StepAfterStart(c: Config, s1: State, s: State, a: Action)
    requires Inv(c, s1) && Inv(c, s) && Enabled(c, s, a) && Inv(c, Apply(c, s, a)) && AfterStart(c, s1, s)
    ensures AfterStart(c, s1, Apply(c, s, a))
  {
    var t := Apply(c, s, a);
    if s.drains == s1.drains {
      if !OfTarget(a) {
        ProducerOnCall(c, s1, s, a);
      } else if s.h.Outer? {
        OuterOnCall(c, s1, s);
      } else {
        SourceOnCall(c, s1, s);
      }
    } else {
      LaterKept(c, s1, s, a);
    }
  }

  lemma LaterKept(c: Config, s1: State, s: State, a: Action)
    requires Shape(c, s1) && Shape(c, s) && Enabled(c, s, a) && Shape(c, Apply(c, s, a)) && s.drains > s1.drains
    requires s.drains == s1.drains + 1 && s.h.Clearing? ==> Thorough(c, s1, s)
    ensures var t := Apply(c, s, a);
            t.drains >= s.drains && (t.drains == s1.drains + 1 && t.h.Clearing? ==> Thorough(c, s1, t))
  {
    if !OfTarget(a) {
      OthersDoNotCount(c, s, a);
    }
  }

  lemma {:induction false} RunAfterStart(c: Config, s1: State, acts: seq<Action>, s2: State)
    requires Inv(c, s1) && s1.h == Outer(s1.rotate, 0, 0) && Exec(c, s1, acts) == Some(s2)
    ensures Inv(c, s2) && AfterStart(c, s1, s2)
    decreases |acts|
  {
    if acts == [] {
    } else {
      var p := Exec(c, s1, acts[..|acts| - 1]).value;
      RunAfterStart(c, s1, acts[..|acts| - 1], p);
      StepKeepsInv(c, p, acts[|acts| - 1]);
      StepAfterStart(c, s1, p, acts[|acts| - 1]);
    }
  }

  /**
   A drain call is thorough: when it ends it has dispatched a full batch, or everything that any source had published
   when it began, whatever the producers did meanwhile.
   */
  lemma DrainCallIsThorough(
    c: Config, s0: State, before: seq<Action>, s1: State, acts: seq<Action>, s2: State)
    requires Reachable(c, s0, before) && Exec(c, s0, before) == Some(s1) && s1.h == Outer(s1.rotate, 0, 0)
    requires Exec(c, s1, acts) == Some(s2) && s2.drains == s1.drains + 1 && s2.h.Clearing?
    ensures |s1.ring| == |s2.dispatched| == c.n
    ensures || Sum(s2.dispatched) >= Sum(s1.dispatched) + c.limit
            || forall i: nat | i < c.n && i != c.self :: s1.ring[i].published <= |s2.dispatched[i]|
  {
    InitInv(c, s0);
    RunsKeepInv(c, s0, before);
    RunAfterStart(c, s1, acts, s2);
  }

  // ---- Fairness in steps ----

  /** Drain calls within which the message at depth d is dispatched, from any moment. */
  function CallsToWait(c: Config, d: nat): (r: nat)
    requires c.limit >= 1
    ensures r == Rounds(d, c.limit) * c.n + 1
  {
    MulMono(0, Rounds(d, c.limit), c.n);
    Rounds(d, c.limit) * c.n + 1
  }

  function FairSteps(c: Config, d: nat): nat
    requires c.limit >= 1
  {
    StepsForCalls(c, CallsToWait(c, d))
  }

  lemma FairStepsMono(c: Config, d: nat, e: nat)
    requires c.limit >= 1 && d <= e
    ensures FairSteps(c, d) <= FairSteps(c, e)
  {
    RoundsMono(d, e, c.limit);
    MulMono(Rounds(d, c.limit), Rounds(e, c.limit), c.n);
    MulMono(CallsToWait(c, d), CallsToWait(c, e), CallSteps(c));
  }

  /** A published message is dispatched within a number of target steps that only its depth decides. */
  lemma FairInSteps(
    c: Config, s0: State, before: seq<Action>, s1: State, after: seq<Action>, s2: State, i: nat, m: nat)
    requires Reachable(c, s0, before) && Exec(c, s0, before) == Some(s1) && Exec(c, s1, after) == Some(s2)
    requires c.limit >= 1 && i < c.n && i != c.self
    requires i < |s1.ring| && i < |s1.dispatched| && |s1.dispatched[i]| <= m < s1.ring[i].published
    requires TargetSteps(after) >= FairSteps(c, m - |s1.dispatched[i]|)
    ensures i < |s2.dispatched| && m < |s2.dispatched[i]|
    ensures i < |s1.posted| && m < |s1.posted[i]| && s2.dispatched[i][m] == s1.posted[i][m]
  {
    DrainCallsComplete(c, s0, before, s1, after, s2, CallsToWait(c, m - |s1.dispatched[i]|));
    BoundedFairnessAnywhere(c, s0, before, s1, after, s2, i, m);
  }

  // ---- The target alone settles ----

  /** No handler is running or queued. */
  predicate Stopped(s: State) {
    s.h.NotRunning? && s.queued == 0
  }

  /** A producer that has published and not yet queued the handler it may owe. */
  predicate Owes(p: ProducerPc) {
    p.Published? || p.WonFlag?
  }

  predicate AllOfTarget(acts: seq<Action>) {
    forall k | 0 <= k < |acts| :: OfTarget(acts[k])
  }

  /** Everything the producers own is the same in both states. */
  ghost predicate ProducersStand(s: State, t: State) {
    && t.pc == s.pc && t.posted == s.posted && |t.ring| == |s.ring|
    && forall i | 0 <= i < |s.ring| :: t.ring[i].published == s.ring[i].published
  }

  lemma TargetStepStands(c: Config, s: State, a: Action)
    requires Shape(c, s) && Enabled(c, s, a) && OfTarget(a)
    ensures ProducersStand(s, Apply(c, s, a))
  {
    if a.Handler? {
      forall i | 0 <= i < |s.ring| ensures HandlerStep(c, s).ring[i].published == s.ring[i].published {
        HandlerLeavesPublished(c, s, i);
      }
    }
  }

  lemma ExecMore(c: Config, s: State, acts: seq<Action>, t: State, a: Action)
    requires Exec(c, s, acts) == Some(t) && Shape(c, t) && Enabled(c, t, a)
    ensures Exec(c, s, acts + [a]) == Some(Apply(c, t, a))
  {
    assert (acts + [a])[..|acts|] == acts;
  }

  /** The target runs alone for k steps, or until it stops. */
  lemma {:induction false} RunTarget(c: Config, s: State, k: nat) returns (acts: seq<Action>, t: State)
    requires Inv(c, s)
    ensures Exec(c, s, acts) == Some(t) && Inv(c, t) && ProducersStand(s, t)
    ensures AllOfTarget(acts) && TargetSteps(acts) == |acts| <= k && (|acts| == k || Stopped(t))
  {
    if k == 0 {
      acts, t := [], s;
    } else {
      acts, t := RunTarget(c, s, k - 1);
      if !Stopped(t) && |acts| < k {
        var a := if t.h.NotRunning? then StartHandler else Handler;
        ExecMore(c, s, acts, t, a);
        StepKeepsInv(c, t, a);
        TargetStepStands(c, t, a);
        assert (acts + [a])[..|acts|] == acts;
        acts, t := acts + [a], Apply(c, t, a);
      }
    }
  }

  /** Everything source i published was dispatched, in order. */
  ghost predicate Settled(s: State, i: nat) {
    && i < |s.ring| && i < |s.posted| && i < |s.dispatched| && s.ring[i].published <= |s.posted[i]|
    && s.dispatched[i] == s.posted[i][..s.ring[i].published]
  }

  lemma StoppedIsSettled(c: Config, s: State, i: nat)
    requires Inv(c, s) && Stopped(s) && i < c.n && forall k | 0 <= k < |s.pc| :: !Owes(s.pc[k])
    ensures Settled(s, i)
  {
    CountWonZero(s.pc);
    assert RingOk(c, s, i) && Noticed(c, s, i);
  }

  /** Target steps after which everything that was published is dispatched: no message is deeper than its ring. */
  function SettleSteps(c: Config): nat
    requires c.limit >= 1
  {
    FairSteps(c, c.Capacity())
  }

  lemma LongEnoughSettles(c: Config, s0: State, before: seq<Action>, s: State, acts: seq<Action>, t: State, i: nat)
    requires Reachable(c, s0, before) && Exec(c, s0, before) == Some(s) && Exec(c, s, acts) == Some(t)
    requires Inv(c, s) && Inv(c, t) && ProducersStand(s, t) && c.limit >= 1 && i < c.n
    requires TargetSteps(acts) >= SettleSteps(c)
    ensures Settled(t, i)
  {
    assert RingOk(c, s, i) && RingOk(c, t, i);
    var m := t.ring[i].published - 1;
    if |t.dispatched[i]| <= m {
      AnywhereFacts(c, s0, before, s, acts, t, i, m);
      DepthWithinRing(c, s, i, m);
      FairInSteps(c, s0, before, s, acts, t, i, m);
    }
  }

  lemma DepthWithinRing(c: Config, s: State, i: nat, m: nat)
    requires Shape(c, s) && c.limit >= 1 && i < c.n && RingOk(c, s, i) && |s.dispatched[i]| <= m < s.ring[i].published
    ensures FairSteps(c, m - |s.dispatched[i]|) <= SettleSteps(c)
  {
    FairStepsMono(c, m - |s.dispatched[i]|, c.Capacity());
  }

  /**
   From every reachable state, a target that runs alone dispatches everything published within a number of steps that
   only the configuration decides, unless it stops because a producer has yet to queue the handler.
   */
  lemma TargetSettles(c: Config, s0: State, before: seq<Action>, s: State) returns (acts: seq<Action>, t: State)
    requires Reachable(c, s0, before) && Exec(c, s0, before) == Some(s) && c.limit >= 1
    ensures Exec(c, s, acts) == Some(t) && AllOfTarget(acts) && |acts| <= SettleSteps(c) && ProducersStand(s, t)
    ensures || (forall i: nat | i < c.n :: Settled(t, i))
            || (Stopped(t) && exists k :: 0 <= k < |s.pc| && Owes(s.pc[k]))
  {
    InitInv(c, s0);
    RunsKeepInv(c, s0, before);
    acts, t := RunTarget(c, s, SettleSteps(c));
    if |acts| == SettleSteps(c) {
      forall i: nat | i < c.n ensures Settled(t, i) {
        LongEnoughSettles(c, s0, before, s, acts, t, i);
      }
    } else if forall k | 0 <= k < |s.pc| :: !Owes(s.pc[k]) {
      forall i: nat | i < c.n ensures Settled(t, i) {
        StoppedIsSettled(c, t, i);
      }
    }
  }

  // ---- Every run can be finished ----

  function StepsOfPost(p: ProducerPc): nat {
    match p
    case SawConsumed(_, _) => 4
    case Wrote => 3
    case Published => 2
    case WonFlag => 1
    case Idle => 0
  }

  lemma PostAdvances(c: Config, s: State, i: nat)
    requires Shape(c, s) && i < c.n && !s.pc[i].Idle?
    ensures var t := ProducerStep(c, s, i);
            t.pc == s.pc[i := t.pc[i]] && |t.pc| == |s.pc| && StepsOfPost(t.pc[i]) < StepsOfPost(s.pc[i])
  {
  }

  lemma PostStep(c: Config, s: State, i: nat) returns (acts: seq<Action>, t: State)
    requires Inv(c, s) && i < c.n && i != c.self && !s.pc[i].Idle?
    ensures Exec(c, s, acts) == Some(t) && Inv(c, t) && |acts| == 1
    ensures |t.pc| == |s.pc| && t.pc == s.pc[i := t.pc[i]] && StepsOfPost(t.pc[i]) < StepsOfPost(s.pc[i])
  {
    acts, t := [] + [Producer(i)], ProducerStep(c, s, i);
    ExecMore(c, s, [], s, Producer(i));
    StepKeepsInv(c, s, Producer(i));
    PostAdvances(c, s, i);
  }

  lemma {:induction false} ExecAppend(c: Config, s: State, a: seq<Action>, t: State, b: seq<Action>)
    requires Exec(c, s, a) == Some(t)
    ensures Exec(c, s, a + b) == Exec(c, t, b)
    decreases |b|
  {
    if b == [] {
      assert a + b == a;
    } else {
      ExecAppend(c, s, a, t, b[..|b| - 1]);
      assert (a + b)[..|a + b| - 1] == a + b[..|b| - 1];
    }
  }

  /** A post that has begun is finished by its own core in at most four steps. */
  lemma {:induction false} FinishPost(c: Config, s: State, i: nat) returns (acts: seq<Action>, t: State)
    requires Inv(c, s) && i < c.n && i != c.self
    ensures Exec(c, s, acts) == Some(t) && Inv(c, t) && |acts| <= StepsOfPost(s.pc[i]) && t.pc == s.pc[i := Idle]
    decreases StepsOfPost(s.pc[i])
  {
    if s.pc[i].Idle? {
      acts, t := [], s;
    } else {
      var step, u := PostStep(c, s, i);
      var more;
      more, t := FinishPost(c, u, i);
      ExecAppend(c, s, step, u, more);
      acts := step + more;
    }
  }

  lemma {:induction false} FinishPosts(c: Config, s: State, k: nat) returns (acts: seq<Action>, t: State)
    requires Inv(c, s) && k <= c.n
    ensures Exec(c, s, acts) == Some(t) && Inv(c, t) && |acts| <= 4 * k
    ensures |t.pc| == c.n && forall i | 0 <= i < k :: t.pc[i].Idle?
  {
    if k == 0 {
      acts, t := [], s;
    } else {
      var first, p := FinishPosts(c, s, k - 1);
      var more;
      more, t := FinishAny(c, p, k - 1);
      ExecAppend(c, s, first, p, more);
      acts := first + more;
    }
  }

  /** The target's own core has no post to itself to finish. */
  lemma FinishAny(c: Config, s: State, i: nat) returns (acts: seq<Action>, t: State)
    requires Inv(c, s) && i < c.n
    ensures Exec(c, s, acts) == Some(t) && Inv(c, t) && |acts| <= 4 && t.pc == s.pc[i := Idle]
  {
    if i == c.self {
      acts, t := [], s;
      assert RingOk(c, s, i);
    } else {
      acts, t := FinishPost(c, s, i);
    }
  }

  lemma SettledIsFinished(c: Config, s: State)
    requires Inv(c, s) && forall i: nat | i < c.n :: Settled(s, i) && s.pc[i].Idle?
    ensures s.dispatched == s.posted
  {
    forall i: nat | i < c.n ensures s.dispatched[i] == s.posted[i] {
      assert RingOk(c, s, i) && Settled(s, i);
    }
  }

  /**
   No deadlock and no livelock: every run can be continued, in a number of steps that only the configuration decides,
   to a state in which every post has finished and every message ever accepted was dispatched.
   */
  lemma EveryRunCanFinish(c: Config, s0: State, before: seq<Action>, s: State) returns (acts: seq<Action>, t: State)
    requires Reachable(c, s0, before) && Exec(c, s0, before) == Some(s) && c.limit >= 1
    ensures Exec(c, s, acts) == Some(t) && |acts| <= 4 * c.n + SettleSteps(c)
    ensures |t.pc| == c.n && t.dispatched == t.posted && forall i | 0 <= i < c.n :: t.pc[i].Idle?
  {
    InitInv(c, s0);
    RunsKeepInv(c, s0, before);
    var posts, p := FinishPosts(c, s, c.n);
    ExecAppend(c, s0, before, s, posts);
    var drain;
    drain, t := TargetSettles(c, s0, before + posts, p);
    ExecAppend(c, s, posts, p, drain);
    RunsKeepInv(c, p, drain);
    acts := posts + drain;
    SettledIsFinished(c, t);
  }

  /** With a batch limit of 0 nothing is ever dispatched, so the limit has to be positive. */
  lemma {:induction false} ZeroLimitDispatchesNothing(c: Config, s0: State, acts: seq<Action>, t: State)
    requires Reachable(c, s0, acts) && Exec(c, s0, acts) == Some(t) && c.limit == 0
    ensures t.dispatched == s0.dispatched && !HasSource(t.h)
    ensures forall i | 0 <= i < |t.dispatched| :: t.dispatched[i] == []
    decreases |acts|
  {
    if acts == [] {
    } else {
      var p := Exec(c, s0, acts[..|acts| - 1]).value;
      ZeroLimitDispatchesNothing(c, s0, acts[..|acts| - 1], p);
      ZeroLimitStep(c, p, acts[|acts| - 1]);
    }
  }

  lemma ZeroLimitStep(c: Config, s: State, a: Action)
    requires Shape(c, s) && Enabled(c, s, a) && c.limit == 0 && !HasSource(s.h)
    ensures Apply(c, s, a).dispatched == s.dispatched && !HasSource(Apply(c, s, a).h)
  {
  }
}
