/** Request correlation below and past 2^48 requests per core, where correlation ids start to repeat. */
module GatewayBounds {
  import opened Wrappers
  import opened PendingRequests
  import opened GatewayCorrelation

  // ---- Below 2^48 requests per core ----

  /** Fewer than 2^48 requests were numbered on every core. */
  predicate Bounded(s: State) {
    forall k | 0 <= k < |s.counters| :: s.counters[k] < COUNTER_SPAN
  }

  predicate IdIssued(s: State, id: nat, k: nat) {
    k < |s.counters| && id / COUNTER_SPAN == k && 1 <= id % COUNTER_SPAN <= s.counters[k]
  }

  predicate IssuedOk(s: State, i: nat) {
    i < |s.requests| ==> IdIssued(s, s.requests[i].corr, s.requests[i].core)
  }

  predicate UniqueOk(s: State, i: nat, j: nat) {
    i < j < |s.requests| ==> s.requests[i].corr != s.requests[j].corr
  }

  /** A registered request is stored under its id until it is closed. */
  predicate HeldOk(s: State, i: nat) {
    i < |s.requests| ==> (Stored(s, s.requests[i].core, s.requests[i].corr, i) <==> !Closed(s, i))
  }

  ghost predicate BoundedInv(s: State) {
    && (forall i: nat :: IssuedOk(s, i))
    && (forall i: nat, j: nat :: UniqueOk(s, i, j))
    && (forall i: nat :: HeldOk(s, i))
  }

  lemma NextId(s: State, k: nat) returns (corr: nat)
    requires k < |s.counters| && s.counters[k] + 1 < COUNTER_SPAN
    ensures corr == CorrId(k, s.counters[k] + 1) && corr != 0
    ensures corr / COUNTER_SPAN == k && corr % COUNTER_SPAN == s.counters[k] + 1 && !IdIssued(s, corr, k)
  {
    corr := CorrId(k, s.counters[k] + 1);
    SmallCorrId(k, s.counters[k] + 1);
  }

  /** The condition of `OwnAnswerIff` is met: an id not issued yet is nobody's. */
  lemma UnissuedIsFresh(c: Config, s: State, k: nat, corr: nat)
    requires Inv(c, s) && BoundedInv(s) && k < c.cores && !IdIssued(s, corr, k) && corr / COUNTER_SPAN == k
    ensures corr !in s.pending[k] && forall i | 0 <= i < |s.requests| :: s.requests[i].corr != corr
  {
    forall i | 0 <= i < |s.requests| ensures s.requests[i].corr != corr {
      assert IssuedOk(s, i);
    }
    assert EntryOk(s, k, corr);
  }

  lemma EndKeepsBounded(c: Config, s: State, t: State, z: Closing)
    requires Inv(c, s) && BoundedInv(s) && z.core < c.cores && z.ticket < |s.requests|
    requires s.requests[z.ticket] == Request(z.core, z.session, z.msgId, z.corr)
    requires t == Without(s, z.core, z.corr).(closings := s.closings + [z])
    ensures BoundedInv(t)
  {
    forall i: nat ensures IssuedOk(t, i) {
      assert IssuedOk(s, i);
    }
    forall i: nat, j: nat ensures UniqueOk(t, i, j) {
      assert UniqueOk(s, i, j);
    }
    forall i: nat ensures HeldOk(t, i) {
      assert HeldOk(s, i) && UniqueOk(s, i, z.ticket) && UniqueOk(s, z.ticket, i);
      ClosedGrows(s, t, z, i);
    }
  }

  lemma CloseKeepsBounded(c: Config, s: State, k: nat, corr: nat, outcome: Outcome, taken: set<nat>)
    requires Inv(c, s) && BoundedInv(s) && k < c.cores && corr in s.pending[k] && corr in s.owner[k]
    ensures BoundedInv(Close(s, k, corr, outcome, taken))
  {
    var t := Close(s, k, corr, outcome, taken);
    assert EntryOk(s, k, corr);
    EndKeepsBounded(c, s, t, t.closings[|s.closings|]);
  }

  lemma BookkeepingKeepsBounded(s: State, t: State)
    requires BoundedInv(s) && t == s.(counters := t.counters, posted := t.posted, refused := t.refused)
    requires |s.counters| == |t.counters| && forall k | 0 <= k < |s.counters| :: s.counters[k] <= t.counters[k]
    ensures BoundedInv(t)
  {
    forall i: nat ensures IssuedOk(t, i) {
      assert IssuedOk(s, i);
    }
    forall i: nat, j: nat ensures UniqueOk(t, i, j) {
      assert UniqueOk(s, i, j);
    }
    forall i: nat ensures HeldOk(t, i) {
      assert HeldOk(s, i);
      assert Closed(t, i) <==> Closed(s, i);
    }
  }

  lemma RegisterKeepsBounded(c: Config, s: State, k: nat, session: nat, msgId: nat, now: int)
    requires Inv(c, s) && BoundedInv(s) && k < c.cores && s.counters[k] + 1 < COUNTER_SPAN
    ensures BoundedInv(Registered(c, s, k, session, msgId, now))
  {
    var t := Registered(c, s, k, session, msgId, now);
    var corr := NextId(s, k);
    UnissuedIsFresh(c, s, k, corr);
    NewTicketIsOpen(c, s);
    forall i: nat ensures IssuedOk(t, i) {
      assert IssuedOk(s, i);
    }
    forall i: nat, j: nat ensures UniqueOk(t, i, j) {
      assert UniqueOk(s, i, j);
    }
    forall i: nat ensures HeldOk(t, i) {
      assert HeldOk(s, i) && IssuedOk(s, i);
      RegisterHolds(c, s, k, session, msgId, now, i);
    }
  }

  lemma RegisterHolds(c: Config, s: State, k: nat, session: nat, msgId: nat, now: int, i: nat)
    requires Shape(c, s) && k < c.cores && HeldOk(s, i) && IssuedOk(s, i) && !Closed(s, |s.requests|)
    requires CorrId(k, s.counters[k] + 1) !in s.pending[k]
    requires forall j | 0 <= j < |s.requests| :: s.requests[j].corr != CorrId(k, s.counters[k] + 1)
    ensures HeldOk(Registered(c, s, k, session, msgId, now), i)
  {
    var t := Registered(c, s, k, session, msgId, now);
    assert Closed(t, i) <==> Closed(s, i);
  }

  lemma HandleKeepsBounded(
    c: Config, s: State, k: nat, session: nat, msgId: nat, now: int, routed: bool, taken: set<nat>)
    requires Inv(c, s) && BoundedInv(s) && k < c.cores && s.counters[k] + 1 < COUNTER_SPAN
    ensures BoundedInv(AfterHandle(c, s, k, session, msgId, now, routed, taken))
  {
    var t := AfterHandle(c, s, k, session, msgId, now, routed, taken);
    if |s.pending[k]| >= c.maxEntries {
      BookkeepingKeepsBounded(s, t);
    } else {
      RegisterKeepsInv(c, s, k, session, msgId, now);
      RegisterKeepsBounded(c, s, k, session, msgId, now);
      if !routed {
        EndKeepsBounded(c, Registered(c, s, k, session, msgId, now), t, t.closings[|s.closings|]);
      }
    }
  }

  lemma {:induction false} SweepKeepsBounded(c: Config, s: State, k: nat, order: seq<nat>, taken: set<nat>)
    requires Inv(c, s) && BoundedInv(s) && k < c.cores
    requires forall id | id in order :: id in s.pending[k] && id in s.owner[k]
    requires NoDuplicates(order)
    ensures BoundedInv(AfterSweep(s, k, order, taken))
    decreases |order|
  {
    if order == [] {
    } else {
      SweepKeepsBounded(c, s, k, order[..|order| - 1], taken);
      SweepKeepsInv(c, s, k, order[..|order| - 1], taken);
      CloseKeepsBounded(c, AfterSweep(s, k, order[..|order| - 1], taken), k, order[|order| - 1], TimedOut, taken);
    }
  }

  lemma StepKeepsBounded(c: Config, s: State, a: Action)
    requires Inv(c, s) && BoundedInv(s) && Enabled(c, s, a) && Bounded(Apply(c, s, a))
    ensures BoundedInv(Apply(c, s, a))
  {
    match a {
      case Handle(k, session, msgId, now, routed, taken) =>
        assert Apply(c, s, a).counters[k] == s.counters[k] + 1;
        HandleKeepsBounded(c, s, k, session, msgId, now, routed, taken);
      case Receive(_, _, _) => BookkeepingKeepsBounded(s, Apply(c, s, a));
      case Dispatch(i, taken) =>
        var r := s.posted[i];
        var u := s.(posted := s.posted[..i] + s.posted[i + 1..]);
        BookkeepingKeepsBounded(s, u);
        if r.corr in s.pending[r.core] {
          forall j: nat ensures PostOk(c, u, j) {
            assert PostOk(c, s, j) && PostOk(c, s, j + 1);
          }
          BookkeepingKeepsInv(c, s, u);
          CloseKeepsBounded(c, u, r.core, r.corr, if r.wellFormed then Answered else Undeliverable, taken);
        }
      case Sweep(k, _, order, taken) => SweepKeepsBounded(c, s, k, order, taken);
    }
  }

  lemma CountersGrow(c: Config, s: State, a: Action)
    requires Enabled(c, s, a) && Bounded(Apply(c, s, a))
    ensures Bounded(s)
  {
    var t := Apply(c, s, a);
    if a.Sweep? {
      SweepEffect(s, a.core, a.order, a.taken);
    }
    forall j | 0 <= j < |s.counters| ensures s.counters[j] < COUNTER_SPAN {
      assert s.counters[j] <= t.counters[j] < COUNTER_SPAN;
    }
  }

  lemma {:induction false} RunsKeepBounded(c: Config, acts: seq<Action>, s: State)
    requires Reaches(c, acts, s) && Bounded(s)
    ensures Inv(c, s) && BoundedInv(s)
    decreases |acts|
  {
    ReachedInv(c, acts, s);
    if acts == [] {
    } else {
      var p, a := Exec(c, Initial(c), acts[..|acts| - 1]).value, acts[|acts| - 1];
      CountersGrow(c, p, a);
      RunsKeepBounded(c, acts[..|acts| - 1], p);
      StepKeepsBounded(c, p, a);
    }
  }

  /** A new request is numbered with an id no earlier request has, and never with the push marker 0. */
  lemma NextIdIsFresh(c: Config, acts: seq<Action>, s: State, k: nat)
    requires Reaches(c, acts, s) && k < c.cores
    requires Bounded(s) && |s.counters| == c.cores && s.counters[k] + 1 < COUNTER_SPAN
    ensures var corr := CorrId(k, s.counters[k] + 1);
            && corr != 0 && |s.pending| == c.cores && corr !in s.pending[k]
            && forall i | 0 <= i < |s.requests| :: s.requests[i].corr != corr
  {
    RunsKeepBounded(c, acts, s);
    var corr := NextId(s, k);
    UnissuedIsFresh(c, s, k, corr);
  }

  /** So below the bound every routed request can be answered. */
  lemma EveryRequestIsAnswerable(
    c: Config, acts: seq<Action>, s: State, k: nat, session: nat, msgId: nat, now: int, taken: set<nat>)
    requires Reaches(c, acts, s) && k < c.cores && Shape(c, s) && |s.pending[k]| < c.maxEntries
    requires Bounded(s) && s.counters[k] + 1 < COUNTER_SPAN
    ensures var t := AfterHandle(c, s, k, session, msgId, now, true, taken);
            exists more :: CanEnd(c, t, more, |s.requests|, Answered)
  {
    NextIdIsFresh(c, acts, s, k);
    OwnAnswerIff(c, acts, s, k, session, msgId, now, taken);
  }

  /** The pending maps hold exactly the unclosed requests, each on its own core under its own id and session. */
  lemma PendingIsUnanswered(c: Config, acts: seq<Action>, s: State, i: nat)
    requires Reaches(c, acts, s) && Bounded(s) && i < |s.requests|
    ensures var r := s.requests[i];
            && r.core < c.cores == |s.pending|
            && (r.corr in s.pending[r.core] <==> !Closed(s, i))
            && (!Closed(s, i) ==>
                  && s.pending[r.core][r.corr].session == r.session
                  && s.pending[r.core][r.corr].msgId == r.msgId)
  {
    RunsKeepBounded(c, acts, s);
    var r := s.requests[i];
    assert IssuedOk(s, i) && HeldOk(s, i) && EntryOk(s, r.core, r.corr);
    if r.corr in s.pending[r.core] {
      var j := s.owner[r.core][r.corr];
      assert UniqueOk(s, i, j) && UniqueOk(s, j, i);
    }
  }

  /**
   A response ends request i exactly when it names i's core and id and i is not closed; a late, duplicate, forged or
   wrong-core response, one that fits no unclosed request, changes nothing.
   */
  lemma ResponseEffect(c: Config, acts: seq<Action>, s: State, index: nat, taken: set<nat>, i: nat)
    requires Reaches(c, acts, s) && Bounded(s) && Enabled(c, s, Dispatch(index, taken)) && i < |s.requests|
    ensures var r, q, t := s.posted[index], s.requests[i], Apply(c, s, Dispatch(index, taken));
            && (Closed(t, i) <==> Closed(s, i) || Fits(r, q))
            && (Fits(r, q) && !Closed(s, i) ==>
                  t.closings == s.closings + [Closing(
                    i, q.core, q.corr, q.session, q.msgId, if r.wellFormed then Answered else Undeliverable,
                    r.wellFormed && q.corr in taken)])
  {
    RunsKeepBounded(c, acts, s);
    var r, q, t := s.posted[index], s.requests[i], Apply(c, s, Dispatch(index, taken));
    PendingIsUnanswered(c, acts, s, i);
    assert EntryOk(s, r.core, r.corr) && HeldOk(s, i);
    if r.corr in s.pending[r.core] {
      var j := s.owner[r.core][r.corr];
      assert UniqueOk(s, i, j) && UniqueOk(s, j, i);
      ClosedGrows(s, t, t.closings[|s.closings|], i);
    } else {
      assert Closed(t, i) <==> Closed(s, i);
    }
  }

  predicate Fits(r: Response, q: Request) {
    r.core == q.core && r.corr == q.corr
  }

  lemma UselessResponse(c: Config, acts: seq<Action>, s: State, index: nat, taken: set<nat>)
    requires Reaches(c, acts, s) && Enabled(c, s, Dispatch(index, taken))
    requires forall i: nat | i < |s.requests| :: Fits(s.posted[index], s.requests[i]) ==> Closed(s, i)
    ensures var t := Apply(c, s, Dispatch(index, taken)); t == s.(posted := t.posted)
  {
    ReachedInv(c, acts, s);
    assert EntryOk(s, s.posted[index].core, s.posted[index].corr);
  }

  /** Below 2^48 requests per core a sweep ends a request exactly when it is on that core and its deadline has come. */
  lemma SweptIffDue(c: Config, acts: seq<Action>, s: State, k: nat, now: int, order: seq<nat>, taken: set<nat>, i: nat)
    requires Reaches(c, acts, s) && Bounded(s) && Enabled(c, s, Sweep(k, now, order, taken)) && i < |s.requests|
    ensures var t, q := Apply(c, s, Sweep(k, now, order, taken)), s.requests[i];
            && q.core < |s.pending|
            && (Closed(t, i) <==>
                || Closed(s, i)
                || (q.core == k && q.corr in s.pending[k] && s.pending[k][q.corr].deadline <= now))
  {
    PendingIsUnanswered(c, acts, s, i);
    RunsKeepBounded(c, acts, s);
    var t, q, due := Apply(c, s, Sweep(k, now, order, taken)), s.requests[i], Expired(s.pending[k], now);
    SweepClosesExpired(c, s, k, now, order, taken);
    if q.core == k && q.corr in due {
      assert HeldOk(s, i);
      assert Expiry(s, k, q.corr, taken) in t.closings[|s.closings|..];
      EndsOwner(s, t, k, q.corr, taken, i);
    }
    if Closed(t, i) && !Closed(s, i) {
      NewlyClosed(c, s, t, k, due, taken, i);
    }
    if Closed(s, i) {
      var j :| 0 <= j < |s.closings| && s.closings[j].ticket == i;
      assert t.closings[..|s.closings|][j] == t.closings[j];
    }
  }

  lemma EndsOwner(s: State, t: State, k: nat, id: nat, taken: set<nat>, i: nat)
    requires k < |s.pending| == |s.owner| && id in s.pending[k] && id in s.owner[k] && |t.closings| >= |s.closings|
    requires Expiry(s, k, id, taken) in t.closings[|s.closings|..]
    requires Stored(s, k, id, i) || Closed(s, i)
    requires Closed(s, i) ==> Closed(t, i)
    ensures Closed(t, i)
  {
    if Stored(s, k, id, i) {
      var rest := t.closings[|s.closings|..];
      var j :| 0 <= j < |rest| && rest[j] == Expiry(s, k, id, taken);
      assert t.closings[|s.closings| + j].ticket == i;
    }
  }

  lemma NewlyClosed(c: Config, s: State, t: State, k: nat, due: set<nat>, taken: set<nat>, i: nat)
    requires Inv(c, s) && k < c.cores && i < |s.requests| && Closed(t, i) && !Closed(s, i)
    requires |t.closings| >= |s.closings| && t.closings[..|s.closings|] == s.closings
    requires forall id | id in due :: id in s.pending[k] && id in s.owner[k]
    requires forall z | z in t.closings[|s.closings|..] :: z.corr in due && z == Expiry(s, k, z.corr, taken)
    ensures s.requests[i].core == k && s.requests[i].corr in due
  {
    var j :| 0 <= j < |t.closings| && t.closings[j].ticket == i;
    assert forall x | 0 <= x < |s.closings| :: t.closings[x] == s.closings[x] && s.closings[x].ticket != i;
    var z := t.closings[|s.closings|..][j - |s.closings|];
    assert z == t.closings[j] && z in t.closings[|s.closings|..];
    assert EntryOk(s, k, z.corr);
  }

  /** So a request routed at time `at` is ended by a sweep right after it if and only if the timeout has passed. */
  lemma TimesOutIff(
    c: Config, acts: seq<Action>, s: State, k: nat, session: nat, msgId: nat, at: int, now: int, order: seq<nat>,
    taken: set<nat>)
    requires Reaches(c, acts, s) && k < c.cores && Shape(c, s) && |s.pending[k]| < c.maxEntries
    requires Bounded(s) && s.counters[k] + 1 < COUNTER_SPAN
    requires var t := AfterHandle(c, s, k, session, msgId, at, true, {}); Enabled(c, t, Sweep(k, now, order, taken))
    ensures var t := AfterHandle(c, s, k, session, msgId, at, true, {});
            Closed(Apply(c, t, Sweep(k, now, order, taken)), |s.requests|) <==> at + c.timeout <= now
  {
    var a := Handle(k, session, msgId, at, true, {});
    var t := Apply(c, s, a);
    ExecMore(c, Initial(c), acts, s, a);
    RoutedIsPending(c, acts, s, k, session, msgId, at);
    SweptIffDue(c, acts + [a], t, k, now, order, taken, |s.requests|);
  }

  lemma RoutedIsPending(c: Config, acts: seq<Action>, s: State, k: nat, session: nat, msgId: nat, at: int)
    requires Reaches(c, acts, s) && k < c.cores && Shape(c, s) && |s.pending[k]| < c.maxEntries
    requires Bounded(s) && s.counters[k] + 1 < COUNTER_SPAN
    ensures var t, corr := AfterHandle(c, s, k, session, msgId, at, true, {}), CorrId(k, s.counters[k] + 1);
            && Shape(c, t) && Bounded(t) && !Closed(t, |s.requests|)
            && t.requests == s.requests + [Request(k, session, msgId, corr)]
            && corr in t.pending[k] && t.pending[k][corr].deadline == at + c.timeout
  {
    var t := AfterHandle(c, s, k, session, msgId, at, true, {});
    NextIdIsFresh(c, acts, s, k);
    ReachedInv(c, acts, s);
    NewTicketIsOpen(c, s);
    assert Closed(t, |s.requests|) <==> Closed(s, |s.requests|);
  }

  // ---- From the received response on ----

  /** The run received this response for a core that exists, and it was no push. */
  predicate Received(c: Config, acts: seq<Action>, core: nat, corr: nat, wellFormed: bool) {
    core < c.cores && corr != 0 && Receive(core, corr, wellFormed) in acts
  }

  predicate PostedFrom(c: Config, acts: seq<Action>, s: State, i: nat) {
    i < |s.posted| ==> Received(c, acts, s.posted[i].core, s.posted[i].corr, s.posted[i].wellFormed)
  }

  predicate ClosedFrom(c: Config, acts: seq<Action>, s: State, i: nat) {
    i < |s.closings| && FromResponse(s.closings[i].outcome) ==>
      Received(c, acts, s.closings[i].core, s.closings[i].corr, s.closings[i].outcome.Answered?)
  }

  lemma CloseFrom(c: Config, acts: seq<Action>, s: State, t: State, r: Response, i: nat)
    requires Received(c, acts, r.core, r.corr, r.wellFormed) && ClosedFrom(c, acts, s, i)
    requires |t.closings| == |s.closings| + 1 && t.closings[..|s.closings|] == s.closings
    requires var z := t.closings[|s.closings|];
             z.core == r.core && z.corr == r.corr && z.outcome == if r.wellFormed then Answered else Undeliverable
    ensures ClosedFrom(c, acts, t, i)
  {
    if i < |s.closings| {
      assert t.closings[i] == t.closings[..|s.closings|][i];
    }
  }

  lemma PostedSources(c: Config, acts: seq<Action>, s: State, a: Action, j: nat)
    requires Enabled(c, s, a) && a in acts && PostedFrom(c, acts, s, j) && PostedFrom(c, acts, s, j + 1)
    ensures PostedFrom(c, acts, Apply(c, s, a), j)
  {
    if a.Sweep? {
      SweepEffect(s, a.core, a.order, a.taken);
    }
  }

  lemma SweptSources(c: Config, acts: seq<Action>, s: State, a: Action, i: nat)
    requires a.Sweep? && Enabled(c, s, a) && ClosedFrom(c, acts, s, i)
    ensures ClosedFrom(c, acts, Apply(c, s, a), i)
  {
    var t := Apply(c, s, a);
    SweepEffect(s, a.core, a.order, a.taken);
    if i < |s.closings| {
      assert t.closings[i] == t.closings[..|s.closings|][i];
    } else if i < |t.closings| {
      var k := i - |s.closings|;
      assert t.closings[|s.closings| + k] == Expiry(s, a.core, a.order[k], a.taken);
    }
  }

  lemma ClosedSources(c: Config, acts: seq<Action>, s: State, a: Action, i: nat)
    requires Enabled(c, s, a) && (a.Dispatch? ==> PostedFrom(c, acts, s, a.index)) && ClosedFrom(c, acts, s, i)
    ensures ClosedFrom(c, acts, Apply(c, s, a), i)
  {
    if a.Sweep? {
      SweptSources(c, acts, s, a, i);
    } else if a.Dispatch? && s.posted[a.index].corr in s.pending[s.posted[a.index].core] {
      CloseFrom(c, acts, s, Apply(c, s, a), s.posted[a.index], i);
    }
  }

  lemma MoreActs(c: Config, acts: seq<Action>, a: Action, s: State, i: nat)
    ensures PostedFrom(c, acts, s, i) ==> PostedFrom(c, acts + [a], s, i)
    ensures ClosedFrom(c, acts, s, i) ==> ClosedFrom(c, acts + [a], s, i)
  {
  }

  /**
   In runs of any length a request ends as answered only by a well-formed response that was received for its core and
   id, and as undeliverable only by a malformed one.
   */
  lemma {:induction false} AnsweredWasReceived(c: Config, acts: seq<Action>, s: State, i: nat)
    requires Reaches(c, acts, s)
    ensures ClosedFrom(c, acts, s, i) && forall j: nat :: PostedFrom(c, acts, s, j)
    decreases |acts|
  {
    if acts == [] {
    } else {
      var before, a := acts[..|acts| - 1], acts[|acts| - 1];
      var p := Exec(c, Initial(c), before).value;
      AnsweredWasReceived(c, before, p, i);
      assert acts == before + [a];
      MoreActs(c, before, a, p, i);
      forall j: nat ensures PostedFrom(c, acts, p, j) {
        MoreActs(c, before, a, p, j);
      }
      ClosedSources(c, acts, p, a, i);
      forall j: nat ensures PostedFrom(c, acts, s, j) {
        PostedSources(c, acts, p, a, j);
      }
    }
  }

  /**
   Below 2^48 requests per core, receiving a response and dispatching it ends exactly the unclosed request it names: as
   answered, with a frame, if it is well-formed, and otherwise without one. A push or a core that does not exist is
   dropped on receipt.
   */
  lemma ReceivedEffect(
    c: Config, acts: seq<Action>, s: State, core: nat, corr: nat, wellFormed: bool, taken: set<nat>, i: nat)
    requires Reaches(c, acts, s) && Bounded(s) && i < |s.requests|
    ensures Enabled(c, s, Receive(core, corr, wellFormed))
    ensures var u := Apply(c, s, Receive(core, corr, wellFormed));
            && (corr == 0 || core >= c.cores ==> u == s)
            && (corr != 0 && core < c.cores ==>
                  && Enabled(c, u, Dispatch(|s.posted|, taken))
                  && var t, q := Apply(c, u, Dispatch(|s.posted|, taken)), s.requests[i];
                     && (Closed(t, i) <==> Closed(s, i) || (core == q.core && corr == q.corr))
                     && (core == q.core && corr == q.corr && !Closed(s, i) ==>
                           t.closings == s.closings + [Closing(
                             i, q.core, q.corr, q.session, q.msgId, if wellFormed then Answered else Undeliverable,
                             wellFormed && q.corr in taken)]))
  {
    var a := Receive(core, corr, wellFormed);
    ReachedInv(c, acts, s);
    if corr != 0 && core < c.cores {
      var u := Apply(c, s, a);
      StepKeepsInv(c, s, a);
      InvOwns(c, u, core);
      ExecMore(c, Initial(c), acts, s, a);
      ResponseEffect(c, acts + [a], u, |s.posted|, taken, i);
      assert Closed(u, i) <==> Closed(s, i);
    }
  }

  // ---- Past 2^48 requests ----

  /** A core with one pending entry, stored by request 0, after n requests were numbered on it. */
  predicate OnlyFirst(s: State, k: nat, n: nat, e: Entry) {
    && k < |s.pending| == |s.owner| == |s.counters|
    && s.counters[k] == n && s.pending[k] == map[CorrId(k, 1) := e] && Stored(s, k, CorrId(k, 1), 0)
    && |s.requests| == n && n >= 1 && s.requests[0] == Request(k, e.session, e.msgId, CorrId(k, 1))
  }

  lemma FailOnce(c: Config, s: State, k: nat, n: nat, e: Entry)
    requires Shape(c, s) && c.maxEntries >= 2 && OnlyFirst(s, k, n, e) && CorrId(k, n + 1) != CorrId(k, 1)
    ensures OnlyFirst(AfterHandle(c, s, k, e.session, e.msgId, 0, false, {}), k, n + 1, e)
  {
    var t := AfterHandle(c, s, k, e.session, e.msgId, 0, false, {});
    assert s.pending[k].Keys == {CorrId(k, 1)};
    assert t.pending[k] == s.pending[k];
  }

  /** One request that stays pending, then route failures until n requests were numbered. */
  lemma {:induction false} NumberUpTo(c: Config, k: nat, n: nat, e: Entry) returns (acts: seq<Action>, s: State)
    requires k < c.cores && c.maxEntries >= 2 && 1 <= n <= COUNTER_SPAN && e.deadline == c.timeout
    ensures Reaches(c, acts, s) && Shape(c, s) && OnlyFirst(s, k, n, e)
    decreases n
  {
    if n == 1 {
      var a := Handle(k, e.session, e.msgId, 0, true, {});
      acts, s := [a], Apply(c, Initial(c), a);
      ExecOne(c, Initial(c), a);
      assert s.pending[k] == map[CorrId(k, 1) := e];
    } else {
      var less, p := NumberUpTo(c, k, n - 1, e);
      var a := Handle(k, e.session, e.msgId, 0, false, {});
      LaterIdDiffers(k, n);
      FailOnce(c, p, k, n - 1, e);
      ExecMore(c, Initial(c), less, p, a);
      acts, s := less + [a], Apply(c, p, a);
    }
  }

  lemma {:induction false} ExecAppend(c: Config, s: State, a: seq<Action>, t: State, b: seq<Action>)
    requires Exec(c, s, a) == Some(t)
    ensures Exec(c, s, a + b) == Exec(c, t, b)
    decreases |b|
  {
    if b == [] {
      assert a + b == a;
    } else {
      ExecAppend(c, s, a, t, b[..|b| - 1]);
      assert (a + b)[..|a + b| - 1] == a + b[..|b| - 1];
    }
  }

  /**
   Past the bound it breaks: on any core of any gateway that may hold two entries a run exists whose last step
   delivers to `first` the response for a request of `second`, which itself can never be answered any more.
   */
  lemma WrappedIdMisdelivers(c: Config, k: nat, first: nat, second: nat, msgId: nat)
    returns (acts: seq<Action>, s: State)
    requires k < c.cores && c.maxEntries >= 2 && first != second
    ensures Reaches(c, acts, s) && acts != [] && acts[|acts| - 1].Dispatch? && s.closings != [] && s.requests != []
    ensures var z, m := s.closings[|s.closings| - 1], |s.requests| - 1;
            && z.outcome == Answered && z.delivered && z.session == first && z.ticket < m
            && s.requests[m] == Request(k, second, msgId, z.corr)
            && Lost(s, m)
  {
    var e := Entry(first, msgId, c.timeout);
    var before, p := NumberUpTo(c, k, COUNTER_SPAN, e);
    CorrIdWraps(k, 1);
    acts, s := MisdeliverFrom(c, before, p, k, e, second);
  }

  lemma MisdeliverFrom(c: Config, before: seq<Action>, p: State, k: nat, e: Entry, second: nat)
    returns (acts: seq<Action>, s: State)
    requires Reaches(c, before, p) && k < c.cores && c.maxEntries >= 2 && e.session != second
    requires OnlyFirst(p, k, COUNTER_SPAN, e) && CorrId(k, 1 + COUNTER_SPAN) == CorrId(k, 1)
    ensures Reaches(c, acts, s) && acts != [] && acts[|acts| - 1].Dispatch? && s.closings != [] && s.requests != []
    ensures var z, m := s.closings[|s.closings| - 1], |s.requests| - 1;
            && z.outcome == Answered && z.delivered && z.session == e.session && z.ticket < m
            && s.requests[m] == Request(k, second, e.msgId, z.corr)
            && Lost(s, m)
  {
    var a, corr := Handle(k, second, e.msgId, 0, true, {}), CorrId(k, 1);
    ReachedInv(c, before, p);
    var q := Registered(c, p, k, second, e.msgId, 0);
    assert p.pending[k].Keys == {corr};
    assert Apply(c, p, a) == q;
    ExecMore(c, Initial(c), before, p, a);
    RegisterKeepsInv(c, p, k, second, e.msgId, 0);
    DuplicateIsLost(c, p, k, second, e.msgId, 0);
    CorrIdZero(k, 1);
    var more;
    more, s := AnswerStored(c, q, k, corr, 0, {corr});
    LostForever(c, q, more, |p.requests|);
    ExecAppend(c, Initial(c), before + [a], q, more);
    acts := before + [a] + more;
  }
}
