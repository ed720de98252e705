/**
 Per-IP connection limiting. Each IP is counted on one owner core; other cores ask it
 through a cross-core call that may time out, in which case a compensating decrement
 is posted although the increment may have happened, may still happen or never will.
 */
module ConnectionLimiter {

  type Counts = map<string, nat>

  function Count(counts: Counts, ip: string): nat {
    if ip in counts then counts[ip] else 0
  }

  predicate Admits(counts: Counts, ip: string, max: nat) {
    ip != "" && Count(counts, ip) < max
  }

  function Incremented(counts: Counts, ip: string, max: nat): Counts {
    if Admits(counts, ip, max) then counts[ip := Count(counts, ip) + 1] else counts
  }

  function Decremented(counts: Counts, ip: string): Counts {
    if Count(counts, ip) <= 1 then counts - {ip} else counts[ip := Count(counts, ip) - 1]
  }

  /** No stale zero entries, nothing above the limit. */
  ghost predicate InRange(counts: Counts, max: nat) {
    forall ip | ip in counts :: ip != "" && 1 <= counts[ip] <= max
  }

  class Limiter {
    const maxPerIp: nat
    var counts: map<string, nat>

    constructor (maxPerIp: nat)
      ensures this.maxPerIp == maxPerIp && counts == map[]
    {
      this.maxPerIp, counts := maxPerIp, map[];
    }

    /** `try_increment`: emplace a zero entry, undo it when the limit is already reached. */
    method TryIncrement(ip: string) returns (ok: bool)
      modifies this
      ensures ok <==> Admits(old(counts), ip, maxPerIp)
      ensures counts == Incremented(old(counts), ip, maxPerIp)
    {
      if ip == "" {
        return false;
      }
      var inserted := ip !in counts;
      if inserted {
        counts := counts[ip := 0];
      }
      if counts[ip] >= maxPerIp {
        if inserted {
          counts := counts - {ip};
        }
        return false;
      }
      counts := counts[ip := counts[ip] + 1];
      return true;
    }

    /** `decrement`: unknown and zero-count IPs are tolerated. */
    method Decrement(ip: string)
      modifies this
      ensures counts == Decremented(old(counts), ip)
    {
      if ip !in counts {
        assert counts - {ip} == counts;
        return;
      }
      if counts[ip] == 0 {
        counts := counts - {ip};
        return;
      }
      counts := counts[ip := counts[ip] - 1];
      if counts[ip] == 0 {
        counts := counts - {ip};
      }
    }
  }

  // ---- The protocol ----

  /**
   Connections of one IP by phase. `waiting`: call queued, owner not started; `started`: owner past its status
   check; `granted`/`denied`: the increment ran and the caller has not yet answered; `late`: like started but
   the caller gave up; `live`: sessions; `releasing`: posted releases; `orphans`: increments whose caller gave
   up; `compensating`: posted and not yet run compensations; `compensations`: all ever posted.
   */
  datatype Ledger = Ledger(
    waiting: nat, started: nat, granted: nat, denied: nat, late: nat,
    live: nat, releasing: nat, orphans: nat, compensating: nat, compensations: nat)

  const NOTHING := Ledger(0, 0, 0, 0, 0, 0, 0, 0, 0, 0)

  /** All owner shards together: an IP occurs only in its owner's table. */
  datatype State = State(counts: Counts, ledger: map<string, Ledger>)

  function Of(s: State, ip: string): Ledger {
    if ip in s.ledger then s.ledger[ip] else NOTHING
  }

  datatype Kind =
    | AcceptLocally
    | Call
    | Start
    | GiveUpEarly
    | Run
    | RunThrows
    | GiveUpStarted
    | RunLate
    | GiveUpRan(granted: bool)
    | Answer(granted: bool)
    | CloseLocally
    | CloseRemotely
    | Release
    | Compensate

  datatype Action = Action(kind: Kind, ip: string)

  predicate Possible(l: Ledger, kind: Kind) {
    match kind
    case AcceptLocally => true
    case Call => true
    case Start => l.waiting > 0
    case GiveUpEarly => l.waiting > 0
    case Run => l.started > 0
    case RunThrows => l.started > 0
    case GiveUpStarted => l.started > 0
    case RunLate => l.late > 0
    case GiveUpRan(g) => if g then l.granted > 0 else l.denied > 0
    case Answer(g) => if g then l.granted > 0 else l.denied > 0
    case CloseLocally => l.live > 0
    case CloseRemotely => l.live > 0
    case Release => l.releasing > 0
    case Compensate => l.compensating > 0
  }

  predicate Enabled(s: State, a: Action) {
    a.ip != "" && Possible(Of(s, a.ip), a.kind)
  }

  function GaveUp(l: Ledger): Ledger {
    l.(compensating := l.compensating + 1, compensations := l.compensations + 1)
  }

  /** The ledger after a step; `ok` is the limiter's answer to an increment. */
  function Next(l: Ledger, kind: Kind, ok: bool): Ledger
    requires Possible(l, kind)
  {
    match kind
    case AcceptLocally => if ok then l.(live := l.live + 1) else l
    case Call => l.(waiting := l.waiting + 1)
    case Start => l.(waiting := l.waiting - 1, started := l.started + 1)
    case GiveUpEarly => GaveUp(l.(waiting := l.waiting - 1))
    case Run =>
      if ok then l.(started := l.started - 1, granted := l.granted + 1)
      else l.(started := l.started - 1, denied := l.denied + 1)
    case RunThrows => GaveUp(l.(started := l.started - 1))
    case GiveUpStarted => GaveUp(l.(started := l.started - 1, late := l.late + 1))
    case RunLate => l.(late := l.late - 1, orphans := if ok then l.orphans + 1 else l.orphans)
    case GiveUpRan(g) =>
      GaveUp(if g then l.(granted := l.granted - 1, orphans := l.orphans + 1) else l.(denied := l.denied - 1))
    case Answer(g) => if g then l.(granted := l.granted - 1, live := l.live + 1) else l.(denied := l.denied - 1)
    case CloseLocally => l.(live := l.live - 1)
    case CloseRemotely => l.(live := l.live - 1, releasing := l.releasing + 1)
    case Release => l.(releasing := l.releasing - 1)
    case Compensate => l.(compensating := l.compensating - 1)
  }

  predicate Increments(kind: Kind) {
    kind.AcceptLocally? || kind.Run? || kind.RunLate?
  }

  predicate Decrements(kind: Kind) {
    kind.CloseLocally? || kind.Release? || kind.Compensate?
  }

  function CountsAfter(max: nat, counts: Counts, a: Action): Counts {
    if Increments(a.kind) then Incremented(counts, a.ip, max)
    else if Decrements(a.kind) then Decremented(counts, a.ip)
    else counts
  }

  function Apply(max: nat, s: State, a: Action): State
    requires Enabled(s, a)
  {
    State(CountsAfter(max, s.counts, a),
          s.ledger[a.ip := Next(Of(s, a.ip), a.kind, Admits(s.counts, a.ip, max))])
  }

  predicate Steps(max: nat, s: State, a: Action, t: State) {
    Enabled(s, a) && t == Apply(max, s, a)
  }

  /** A run from the empty tables: `trace` lists the states around the actions. */
  ghost predicate IsRun(max: nat, trace: seq<State>, acts: seq<Action>) {
    && |trace| == |acts| + 1 && trace[0] == START
    && forall k: nat | k < |acts| :: StepAt(max, trace, acts, k)
  }

  predicate StepAt(max: nat, trace: seq<State>, acts: seq<Action>, k: nat)
    requires |trace| == |acts| + 1 && k < |acts|
  {
    Steps(max, trace[k], acts[k], trace[k + 1])
  }

  const START := State(map[], map[])

  /** Increments that still need their decrement. */
  function Owed(l: Ledger): nat {
    l.live + l.releasing + l.granted + l.orphans
  }

  /**
   The count never exceeds what is owed, and falls short of it at most by the compensations that ran;
   without compensations it is exact.
   */
  predicate Balanced(l: Ledger, n: nat) {
    && l.compensating <= l.compensations
    && n <= Owed(l) <= n + (l.compensations - l.compensating)
    && (l.compensations == 0 ==> l.late == 0 && l.orphans == 0)
  }

  ghost predicate LedgerInv(s: State, ip: string) {
    Balanced(Of(s, ip), Count(s.counts, ip))
  }

  function CountAfter(n: nat, kind: Kind, ok: bool): nat {
    if Increments(kind) && ok then n + 1 else if Decrements(kind) && n > 0 then n - 1 else n
  }

  lemma NextStaysBalanced(l: Ledger, n: nat, kind: Kind, ok: bool)
    requires Balanced(l, n) && Possible(l, kind)
    ensures Balanced(Next(l, kind, ok), CountAfter(n, kind, ok))
  {
  }

  lemma CountStep(max: nat, counts: Counts, a: Action, ip: string)
    requires a.ip != ""
    ensures Count(CountsAfter(max, counts, a), ip)
            == if ip == a.ip then CountAfter(Count(counts, ip), a.kind, Admits(counts, ip, max)) else Count(counts, ip)
  {
  }

  lemma StepKeepsRange(max: nat, s: State, a: Action)
    requires Enabled(s, a) && InRange(s.counts, max)
    ensures InRange(Apply(max, s, a).counts, max)
  {
  }

  lemma {:induction false} RunsKeepLedger(max: nat, trace: seq<State>, acts: seq<Action>, k: nat, ip: string)
    requires IsRun(max, trace, acts) && k <= |acts|
    ensures LedgerInv(trace[k], ip) && InRange(trace[k].counts, max)
  {
    if k == 0 {
      StartIsBalanced(max, ip);
    } else {
      RunsKeepLedger(max, trace, acts, k - 1, ip);
      assert StepAt(max, trace, acts, k - 1);
      var s, a := trace[k - 1], acts[k - 1];
      StepKeepsRange(max, s, a);
      CountStep(max, s.counts, a, ip);
      if ip == a.ip {
        NextStaysBalanced(Of(s, ip), Count(s.counts, ip), a.kind, Admits(s.counts, ip, max));
      }
    }
  }

  lemma StartIsBalanced(max: nat, ip: string)
    ensures LedgerInv(START, ip) && InRange(START.counts, max)
  {
  }

  // ---- Main results ----

  /** In every run live sessions of an IP exceed the limit at most by the compensations posted for it. */
  lemma LiveWithinLimitPlusDrift(max: nat, trace: seq<State>, acts: seq<Action>, k: nat, ip: string)
    requires IsRun(max, trace, acts) && k <= |acts|
    ensures Of(trace[k], ip).live <= max + Of(trace[k], ip).compensations
  {
    RunsKeepLedger(max, trace, acts, k, ip);
  }

  /** Without cross-core failures the count is exact, so the limit is never exceeded and refuses nobody early. */
  lemma ExactWithoutFailures(max: nat, trace: seq<State>, acts: seq<Action>, k: nat, ip: string)
    requires IsRun(max, trace, acts) && k <= |acts| && Of(trace[k], ip).compensations == 0
    ensures var s := trace[k];
            var l := Of(s, ip);
            && Count(s.counts, ip) == l.live + l.releasing + l.granted <= max
            && (ip != "" ==> (Admits(s.counts, ip, max) <==> l.live + l.releasing + l.granted < max))
  {
    RunsKeepLedger(max, trace, acts, k, ip);
  }

  /** Every tracked count stays between 1 and the limit. */
  lemma TrackedCountsInRange(max: nat, trace: seq<State>, acts: seq<Action>, k: nat, ip: string)
    requires IsRun(max, trace, acts) && k <= |acts| && ip in trace[k].counts
    ensures 1 <= trace[k].counts[ip] <= max
  {
    RunsKeepLedger(max, trace, acts, k, ip);
  }

  /** Extends a run by one step and says what becomes of the step's IP. */
  lemma OneMore(max: nat, trace: seq<State>, acts: seq<Action>, a: Action)
    returns (trace': seq<State>, acts': seq<Action>)
    requires IsRun(max, trace, acts) && Enabled(trace[|acts|], a)
    ensures IsRun(max, trace', acts') && |acts'| == |acts| + 1 && acts'[|acts|] == a
    ensures var s, t := trace[|acts|], trace'[|acts'|];
            && Of(t, a.ip) == Next(Of(s, a.ip), a.kind, Admits(s.counts, a.ip, max))
            && Count(t.counts, a.ip) == CountAfter(Count(s.counts, a.ip), a.kind, Admits(s.counts, a.ip, max))
  {
    var s := trace[|acts|];
    trace', acts' := trace + [Apply(max, s, a)], acts + [a];
    forall k: nat | k < |acts'| ensures StepAt(max, trace', acts', k) {
      if k < |acts| {
        assert StepAt(max, trace, acts, k);
      }
    }
    CountStep(max, s.counts, a, a.ip);
  }

  /** One cycle that drifts: a call that gave up before it started is compensated, freeing a slot for a newcomer. */
  lemma DriftOnce(max: nat, trace: seq<State>, acts: seq<Action>, ip: string)
    returns (trace': seq<State>, acts': seq<Action>)
    requires ip != "" && max > 0 && IsRun(max, trace, acts) && Count(trace[|acts|].counts, ip) == max
    ensures IsRun(max, trace', acts') && Count(trace'[|acts'|].counts, ip) == max
    ensures var l, l' := Of(trace[|acts|], ip), Of(trace'[|acts'|], ip);
            l'.live == l.live + 1 && l'.compensations == l.compensations + 1
  {
    trace', acts' := OneMore(max, trace, acts, Action(Call, ip));
    trace', acts' := OneMore(max, trace', acts', Action(GiveUpEarly, ip));
    trace', acts' := OneMore(max, trace', acts', Action(Compensate, ip));
    trace', acts' := OneMore(max, trace', acts', Action(AcceptLocally, ip));
  }

  lemma {:induction false} FillUp(max: nat, n: nat, ip: string) returns (trace: seq<State>, acts: seq<Action>)
    requires ip != "" && n <= max
    ensures IsRun(max, trace, acts) && Count(trace[|acts|].counts, ip) == n
    ensures Of(trace[|acts|], ip).live == n && Of(trace[|acts|], ip).compensations == 0
  {
    if n == 0 {
      trace, acts := [START], [];
    } else {
      trace, acts := FillUp(max, n - 1, ip);
      trace, acts := OneMore(max, trace, acts, Action(AcceptLocally, ip));
    }
  }

  /** The drift bound is tight: for every limit and every number of compensations some run reaches their sum. */
  lemma {:induction false} DriftIsReached(max: nat, drift: nat, ip: string)
    returns (trace: seq<State>, acts: seq<Action>)
    requires ip != "" && max > 0
    ensures IsRun(max, trace, acts) && Count(trace[|acts|].counts, ip) == max
    ensures Of(trace[|acts|], ip).live == max + drift && Of(trace[|acts|], ip).compensations == drift
    decreases drift
  {
    if drift == 0 {
      trace, acts := FillUp(max, max, ip);
    } else {
      trace, acts := DriftIsReached(max, drift - 1, ip);
      trace, acts := DriftOnce(max, trace, acts, ip);
    }
  }

  // ---- The ledger is what happened ----

  function One(b: bool): nat {
    if b then 1 else 0
  }

  /** How often the first k actions did this to the IP. */
  function Times(acts: seq<Action>, k: nat, ip: string, kind: Kind): nat
    requires k <= |acts|
  {
    if k == 0 then 0 else Times(acts, k - 1, ip, kind) + One(acts[k - 1] == Action(kind, ip))
  }

  /** How often, moreover, the count of the IP was below the limit at that moment. */
  function Admitted(max: nat, trace: seq<State>, acts: seq<Action>, k: nat, ip: string, kind: Kind): nat
    requires k <= |acts| && |trace| == |acts| + 1
  {
    if k == 0 then 0
    else
      Admitted(max, trace, acts, k - 1, ip, kind) +
      One(acts[k - 1] == Action(kind, ip) && Count(trace[k - 1].counts, ip) < max)
  }

  /** Live sessions are those admitted locally and those whose remote grant was answered, less those closed. */
  predicate LiveIs(l: Ledger, local: nat, answered: nat, closedHere: nat, closedAway: nat, released: nat) {
    && l.live == local + answered - closedHere - closedAway
    && l.releasing == closedAway - released
  }

  lemma LiveNext(
    l: Ledger, kind: Kind, ok: bool, local: nat, answered: nat, closedHere: nat, closedAway: nat, released: nat)
    requires Possible(l, kind) && LiveIs(l, local, answered, closedHere, closedAway, released)
    ensures LiveIs(Next(l, kind, ok), local + One(kind == AcceptLocally && ok), answered + One(kind == Answer(true)),
                   closedHere + One(kind == CloseLocally), closedAway + One(kind == CloseRemotely),
                   released + One(kind == Release))
  {
  }

  ghost predicate LiveTallies(max: nat, trace: seq<State>, acts: seq<Action>, k: nat, ip: string)
    requires k <= |acts| && |trace| == |acts| + 1
  {
    LiveIs(Of(trace[k], ip), Admitted(max, trace, acts, k, ip, AcceptLocally), Times(acts, k, ip, Answer(true)),
           Times(acts, k, ip, CloseLocally), Times(acts, k, ip, CloseRemotely), Times(acts, k, ip, Release))
  }

  /** In every run the live sessions of an IP are what the actions on it add up to. */
  lemma {:induction false} LiveIsTally(max: nat, trace: seq<State>, acts: seq<Action>, k: nat, ip: string)
    requires IsRun(max, trace, acts) && k <= |acts|
    ensures LiveTallies(max, trace, acts, k, ip)
  {
    if k == 0 {
    } else {
      LiveIsTally(max, trace, acts, k - 1, ip);
      LiveStep(max, trace, acts, k, ip);
    }
  }

  lemma LiveStep(max: nat, trace: seq<State>, acts: seq<Action>, k: nat, ip: string)
    requires IsRun(max, trace, acts) && 0 < k <= |acts| && LiveTallies(max, trace, acts, k - 1, ip)
    ensures LiveTallies(max, trace, acts, k, ip)
  {
    var s, a := trace[k - 1], acts[k - 1];
    assert StepAt(max, trace, acts, k - 1);
    if a.ip == ip {
      LiveNext(Of(s, ip), a.kind, Admits(s.counts, ip, max), Admitted(max, trace, acts, k - 1, ip, AcceptLocally),
               Times(acts, k - 1, ip, Answer(true)), Times(acts, k - 1, ip, CloseLocally),
               Times(acts, k - 1, ip, CloseRemotely), Times(acts, k - 1, ip, Release));
    }
  }

  /** Calls before the owner's answer are those made, less those that went on or were given up. */
  predicate CallsAre(
    l: Ledger, calls: nat, starts: nat, early: nat, runs: nat, throws: nat, abandoned: nat, late: nat) {
    && l.waiting == calls - starts - early
    && l.started == starts - runs - throws - abandoned
    && l.late == abandoned - late
  }

  lemma CallsNext(
    l: Ledger, kind: Kind, ok: bool, calls: nat, starts: nat, early: nat, runs: nat, throws: nat, abandoned: nat,
    late: nat)
    requires Possible(l, kind) && CallsAre(l, calls, starts, early, runs, throws, abandoned, late)
    ensures CallsAre(Next(l, kind, ok), calls + One(kind == Call), starts + One(kind == Start),
                     early + One(kind == GiveUpEarly), runs + One(kind == Run), throws + One(kind == RunThrows),
                     abandoned + One(kind == GiveUpStarted), late + One(kind == RunLate))
  {
  }

  ghost predicate CallTallies(trace: seq<State>, acts: seq<Action>, k: nat, ip: string)
    requires k <= |acts| && |trace| == |acts| + 1
  {
    CallsAre(Of(trace[k], ip), Times(acts, k, ip, Call), Times(acts, k, ip, Start), Times(acts, k, ip, GiveUpEarly),
             Times(acts, k, ip, Run), Times(acts, k, ip, RunThrows), Times(acts, k, ip, GiveUpStarted),
             Times(acts, k, ip, RunLate))
  }

  /** The same for the calls that have no answer yet. */
  lemma {:induction false} CallsAreTally(max: nat, trace: seq<State>, acts: seq<Action>, k: nat, ip: string)
    requires IsRun(max, trace, acts) && k <= |acts|
    ensures CallTallies(trace, acts, k, ip)
  {
    if k == 0 {
    } else {
      CallsAreTally(max, trace, acts, k - 1, ip);
      CallsStep(max, trace, acts, k, ip);
    }
  }

  lemma CallsStep(max: nat, trace: seq<State>, acts: seq<Action>, k: nat, ip: string)
    requires IsRun(max, trace, acts) && 0 < k <= |acts| && CallTallies(trace, acts, k - 1, ip)
    ensures CallTallies(trace, acts, k, ip)
  {
    var s, a := trace[k - 1], acts[k - 1];
    assert StepAt(max, trace, acts, k - 1);
    if a.ip == ip {
      CallsNext(Of(s, ip), a.kind, Admits(s.counts, ip, max), Times(acts, k - 1, ip, Call),
                Times(acts, k - 1, ip, Start), Times(acts, k - 1, ip, GiveUpEarly), Times(acts, k - 1, ip, Run),
                Times(acts, k - 1, ip, RunThrows), Times(acts, k - 1, ip, GiveUpStarted),
                Times(acts, k - 1, ip, RunLate));
    }
  }

  /** Grants and refusals on their way to the caller; orphans are the increments nobody waits for. */
  predicate GrantsAre(
    l: Ledger, runs: nat, granted: nat, yes: nat, no: nat, lostYes: nat, lostNo: nat, lateGrants: nat) {
    && l.granted == granted - yes - lostYes
    && l.denied == runs - granted - no - lostNo
    && l.orphans == lateGrants + lostYes
  }

  lemma GrantsNext(
    l: Ledger, kind: Kind, ok: bool, runs: nat, granted: nat, yes: nat, no: nat, lostYes: nat, lostNo: nat,
    lateGrants: nat)
    requires Possible(l, kind) && GrantsAre(l, runs, granted, yes, no, lostYes, lostNo, lateGrants)
    ensures GrantsAre(Next(l, kind, ok), runs + One(kind == Run), granted + One(kind == Run && ok),
                      yes + One(kind == Answer(true)), no + One(kind == Answer(false)),
                      lostYes + One(kind == GiveUpRan(true)), lostNo + One(kind == GiveUpRan(false)),
                      lateGrants + One(kind == RunLate && ok))
  {
  }

  ghost predicate GrantTallies(max: nat, trace: seq<State>, acts: seq<Action>, k: nat, ip: string)
    requires k <= |acts| && |trace| == |acts| + 1
  {
    GrantsAre(Of(trace[k], ip), Times(acts, k, ip, Run), Admitted(max, trace, acts, k, ip, Run),
              Times(acts, k, ip, Answer(true)), Times(acts, k, ip, Answer(false)), Times(acts, k, ip, GiveUpRan(true)),
              Times(acts, k, ip, GiveUpRan(false)), Admitted(max, trace, acts, k, ip, RunLate))
  }

  /** The same for grants, refusals and orphans. */
  lemma {:induction false} GrantsAreTally(max: nat, trace: seq<State>, acts: seq<Action>, k: nat, ip: string)
    requires IsRun(max, trace, acts) && k <= |acts|
    ensures GrantTallies(max, trace, acts, k, ip)
  {
    if k == 0 {
    } else {
      GrantsAreTally(max, trace, acts, k - 1, ip);
      GrantsStep(max, trace, acts, k, ip);
    }
  }

  lemma GrantsStep(max: nat, trace: seq<State>, acts: seq<Action>, k: nat, ip: string)
    requires IsRun(max, trace, acts) && 0 < k <= |acts| && GrantTallies(max, trace, acts, k - 1, ip)
    ensures GrantTallies(max, trace, acts, k, ip)
  {
    var s, a := trace[k - 1], acts[k - 1];
    assert StepAt(max, trace, acts, k - 1);
    if a.ip == ip {
      GrantsNext(Of(s, ip), a.kind, Admits(s.counts, ip, max), Times(acts, k - 1, ip, Run),
                 Admitted(max, trace, acts, k - 1, ip, Run), Times(acts, k - 1, ip, Answer(true)),
                 Times(acts, k - 1, ip, Answer(false)), Times(acts, k - 1, ip, GiveUpRan(true)),
                 Times(acts, k - 1, ip, GiveUpRan(false)), Admitted(max, trace, acts, k - 1, ip, RunLate));
    }
  }

  /** Every call given up posts one compensation. */
  predicate CompensationsAre(
    l: Ledger, early: nat, throws: nat, abandoned: nat, lostYes: nat, lostNo: nat, compensated: nat) {
    && l.compensations == early + throws + abandoned + lostYes + lostNo
    && l.compensating == l.compensations - compensated
  }

  lemma CompensationsNext(
    l: Ledger, kind: Kind, ok: bool, early: nat, throws: nat, abandoned: nat, lostYes: nat, lostNo: nat,
    compensated: nat)
    requires Possible(l, kind) && CompensationsAre(l, early, throws, abandoned, lostYes, lostNo, compensated)
    ensures CompensationsAre(Next(l, kind, ok), early + One(kind == GiveUpEarly), throws + One(kind == RunThrows),
                             abandoned + One(kind == GiveUpStarted), lostYes + One(kind == GiveUpRan(true)),
                             lostNo + One(kind == GiveUpRan(false)), compensated + One(kind == Compensate))
  {
  }

  ghost predicate CompensationTallies(trace: seq<State>, acts: seq<Action>, k: nat, ip: string)
    requires k <= |acts| && |trace| == |acts| + 1
  {
    CompensationsAre(Of(trace[k], ip), Times(acts, k, ip, GiveUpEarly), Times(acts, k, ip, RunThrows),
                     Times(acts, k, ip, GiveUpStarted), Times(acts, k, ip, GiveUpRan(true)),
                     Times(acts, k, ip, GiveUpRan(false)), Times(acts, k, ip, Compensate))
  }

  /** The same for compensations. */
  lemma {:induction false} CompensationsAreTally(max: nat, trace: seq<State>, acts: seq<Action>, k: nat, ip: string)
    requires IsRun(max, trace, acts) && k <= |acts|
    ensures CompensationTallies(trace, acts, k, ip)
  {
    if k == 0 {
    } else {
      CompensationsAreTally(max, trace, acts, k - 1, ip);
      CompensationsStep(max, trace, acts, k, ip);
    }
  }

  lemma CompensationsStep(max: nat, trace: seq<State>, acts: seq<Action>, k: nat, ip: string)
    requires IsRun(max, trace, acts) && 0 < k <= |acts| && CompensationTallies(trace, acts, k - 1, ip)
    ensures CompensationTallies(trace, acts, k, ip)
  {
    var s, a := trace[k - 1], acts[k - 1];
    assert StepAt(max, trace, acts, k - 1);
    if a.ip == ip {
      CompensationsNext(Of(s, ip), a.kind, Admits(s.counts, ip, max), Times(acts, k - 1, ip, GiveUpEarly),
                        Times(acts, k - 1, ip, RunThrows), Times(acts, k - 1, ip, GiveUpStarted),
                        Times(acts, k - 1, ip, GiveUpRan(true)), Times(acts, k - 1, ip, GiveUpRan(false)),
                        Times(acts, k - 1, ip, Compensate));
    }
  }

  /**
   The remote path, from any moment of any run: call, start, run, answer. Below the limit it ends with one more live
   session and one more in the count; at the limit with a refusal and everything as before.
   */
  lemma RemoteAccept(max: nat, trace: seq<State>, acts: seq<Action>, ip: string)
    returns (trace': seq<State>, acts': seq<Action>)
    requires ip != "" && IsRun(max, trace, acts)
    ensures IsRun(max, trace', acts') && |acts'| == |acts| + 4
    ensures var s, t, ok := trace[|acts|], trace'[|acts'|], Count(trace[|acts|].counts, ip) < max;
            && acts'[|acts'| - 1] == Action(Answer(ok), ip)
            && Of(t, ip) == Of(s, ip).(live := Of(s, ip).live + One(ok))
            && Count(t.counts, ip) == Count(s.counts, ip) + One(ok)
  {
    trace', acts' := AskOwner(max, trace, acts, ip);
    if Count(trace[|acts|].counts, ip) < max {
      trace', acts' := OwnerGrants(max, trace', acts', ip, Of(trace[|acts|], ip));
    } else {
      trace', acts' := OwnerRefuses(max, trace', acts', ip, Of(trace[|acts|], ip));
    }
  }

  lemma AskOwner(max: nat, trace: seq<State>, acts: seq<Action>, ip: string)
    returns (trace': seq<State>, acts': seq<Action>)
    requires ip != "" && IsRun(max, trace, acts)
    ensures IsRun(max, trace', acts') && |acts'| == |acts| + 2
    ensures var s, t := trace[|acts|], trace'[|acts'|];
            && Of(t, ip) == Asked(Of(s, ip))
            && Count(t.counts, ip) == Count(s.counts, ip)
  {
    var l := Of(trace[|acts|], ip);
    trace', acts' := OneMore(max, trace, acts, Action(Call, ip));
    var m := Of(trace'[|acts'|], ip);
    assert m == l.(waiting := l.waiting + 1);
    trace', acts' := OneMore(max, trace', acts', Action(Start, ip));
  }

  function Asked(l: Ledger): Ledger {
    l.(started := l.started + 1)
  }

  lemma OwnerGrants(max: nat, trace: seq<State>, acts: seq<Action>, ip: string, l: Ledger)
    returns (trace': seq<State>, acts': seq<Action>)
    requires ip != "" && IsRun(max, trace, acts) && Of(trace[|acts|], ip) == Asked(l)
    requires Count(trace[|acts|].counts, ip) < max
    ensures IsRun(max, trace', acts') && |acts'| == |acts| + 2 && acts'[|acts'| - 1] == Action(Answer(true), ip)
    ensures Of(trace'[|acts'|], ip) == l.(live := l.live + 1)
    ensures Count(trace'[|acts'|].counts, ip) == Count(trace[|acts|].counts, ip) + 1
  {
    trace', acts' := OneMore(max, trace, acts, Action(Run, ip));
    assert Of(trace'[|acts'|], ip) == l.(granted := l.granted + 1);
    trace', acts' := OneMore(max, trace', acts', Action(Answer(true), ip));
  }

  lemma OwnerRefuses(max: nat, trace: seq<State>, acts: seq<Action>, ip: string, l: Ledger)
    returns (trace': seq<State>, acts': seq<Action>)
    requires ip != "" && IsRun(max, trace, acts) && Of(trace[|acts|], ip) == Asked(l)
    requires Count(trace[|acts|].counts, ip) >= max
    ensures IsRun(max, trace', acts') && |acts'| == |acts| + 2 && acts'[|acts'| - 1] == Action(Answer(false), ip)
    ensures Of(trace'[|acts'|], ip) == l
    ensures Count(trace'[|acts'|].counts, ip) == Count(trace[|acts|].counts, ip)
  {
    trace', acts' := OneMore(max, trace, acts, Action(Run, ip));
    assert Of(trace'[|acts'|], ip) == l.(denied := l.denied + 1);
    trace', acts' := OneMore(max, trace', acts', Action(Answer(false), ip));
  }

  /** A session closed remotely gives its place back once the release has run. */
  lemma RemoteClose(max: nat, trace: seq<State>, acts: seq<Action>, ip: string)
    returns (trace': seq<State>, acts': seq<Action>)
    requires ip != "" && IsRun(max, trace, acts) && Of(trace[|acts|], ip).live > 0
    ensures IsRun(max, trace', acts') && |acts'| == |acts| + 2
    ensures var s, t := trace[|acts|], trace'[|acts'|];
            && Of(t, ip) == Of(s, ip).(live := Of(s, ip).live - 1)
            && Count(t.counts, ip) == if Count(s.counts, ip) > 0 then Count(s.counts, ip) - 1 else 0
  {
    trace', acts' := OneMore(max, trace, acts, Action(CloseRemotely, ip));
    trace', acts' := OneMore(max, trace', acts', Action(Release, ip));
  }
}
