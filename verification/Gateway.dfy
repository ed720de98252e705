/**
 Request/response correlation in the gateway: the router numbers a request, the core's pending map remembers which
 session asked, and a response, a sweep or a routing failure closes it.
 */
module PendingRequests {
  import opened Bits
  import opened Wrappers

  /** The counter part of a correlation id. */
  const COUNTER_BITS: nat := 48
  const COUNTER_SPAN: nat := 0x1_0000_0000_0000

  datatype Entry = Entry(session: nat, msgId: nat, deadline: int)

  type Pending = map<nat, Entry>

  // ---- Correlation ids ----

  /** `core` above the low bits, the masked counter below. */
  function Pack(core: nat, counter: nat, bits: nat): nat {
    Or(core * Pow2(bits), And(counter, Pow2(bits) - 1))
  }

  function CorrId(core: nat, counter: nat): nat {
    Pack(core, counter, COUNTER_BITS)
  }

  lemma {:induction false} OrZero(w: nat)
    ensures Or(0, w) == w
  {
    if w == 0 {
    } else {
      OrHalves(0, w);
      OrZero(w / 2);
    }
  }

  lemma Packed(core: nat, counter: nat, bits: nat)
    ensures Pack(core, counter, bits) == core * Pow2(bits) + counter % Pow2(bits)
  {
    MaskIsMod(counter, bits);
    MulMono(0, core, Pow2(bits));
    OrSplit(core * Pow2(bits), core, bits, 0, counter % Pow2(bits));
    OrZero(counter % Pow2(bits));
  }

  lemma CounterWidth()
    ensures Pow2(COUNTER_BITS) == COUNTER_SPAN
  {
    Pow2Of64();
    assert COUNTER_BITS == 48;
  }

  /** The two halves of an id can be read back. */
  lemma CorrIdParts(core: nat, counter: nat)
    ensures CorrId(core, counter) / COUNTER_SPAN == core
    ensures CorrId(core, counter) % COUNTER_SPAN == counter % COUNTER_SPAN
  {
    CounterWidth();
    Packed(core, counter, COUNTER_BITS);
    DivModUnique(CorrId(core, counter), COUNTER_SPAN, core, counter % COUNTER_SPAN);
  }

  lemma SmallCorrId(core: nat, counter: nat)
    requires counter < COUNTER_SPAN
    ensures CorrId(core, counter) / COUNTER_SPAN == core && CorrId(core, counter) % COUNTER_SPAN == counter
  {
    CorrIdParts(core, counter);
    SmallMod(counter, COUNTER_SPAN);
  }

  /** After 2^48 requests a core's ids repeat. */
  lemma CorrIdWraps(core: nat, counter: nat)
    ensures CorrId(core, counter + COUNTER_SPAN) == CorrId(core, counter)
  {
    ModAddPeriod(counter, COUNTER_SPAN);
    CorrIdCollides(core, counter, core, counter + COUNTER_SPAN);
  }

  /** Two ids collide exactly when core and the low 48 counter bits agree. */
  lemma CorrIdCollides(c1: nat, n1: nat, c2: nat, n2: nat)
    ensures CorrId(c1, n1) == CorrId(c2, n2) <==> c1 == c2 && n1 % COUNTER_SPAN == n2 % COUNTER_SPAN
  {
    CorrIdParts(c1, n1);
    CorrIdParts(c2, n2);
    DivModIdentity(CorrId(c1, n1), COUNTER_SPAN);
    DivModIdentity(CorrId(c2, n2), COUNTER_SPAN);
  }

  /** No id repeats the first one before the counter has gone all the way round. */
  lemma LaterIdDiffers(core: nat, counter: nat)
    requires 1 < counter <= COUNTER_SPAN
    ensures CorrId(core, counter) != CorrId(core, 1)
  {
    CorrIdParts(core, 1);
    CorrIdParts(core, counter);
    SmallMod(1, COUNTER_SPAN);
    if counter < COUNTER_SPAN {
      SmallMod(counter, COUNTER_SPAN);
    }
  }

  /** The push marker 0 is produced exactly by core 0 when its counter wraps. */
  lemma CorrIdZero(core: nat, counter: nat)
    ensures CorrId(core, counter) == 0 <==> core == 0 && counter % COUNTER_SPAN == 0
  {
    CorrIdParts(core, counter);
    DivModIdentity(CorrId(core, counter), COUNTER_SPAN);
  }

  lemma CorrIdFitsWord(core: nat, counter: nat)
    requires core < 0x1_0000
    ensures CorrId(core, counter) < WORD
  {
    CorrIdParts(core, counter);
    DivModIdentity(CorrId(core, counter), COUNTER_SPAN);
  }

  /** The per-core router: only its 64-bit counter matters here. */
  class Router {
    const core: nat
    var counter: nat

    constructor (core: nat)
      ensures this.core == core && counter == 0
    {
      this.core, counter := core, 0;
    }

    method GenerateCorrId() returns (id: nat)
      modifies this
      ensures counter == (old(counter) + 1) % WORD
      ensures id == CorrId(core, counter)
      ensures id / COUNTER_SPAN == core && id % COUNTER_SPAN == counter % COUNTER_SPAN
    {
      counter := (counter + 1) % WORD;
      id := CorrId(core, counter);
      CorrIdParts(core, counter);
    }
  }

  // ---- The pending map ----

  /** `emplace`: an id already present keeps its entry. */
  function Inserted(m: Pending, id: nat, e: Entry): Pending {
    if id in m then m else m[id := e]
  }

  function Expired(m: Pending, now: int): set<nat> {
    set id | id in m && m[id].deadline <= now
  }

  class PendingMap {
    const maxEntries: nat
    const timeout: int
    var entries: Pending

    constructor (maxEntries: nat, timeout: int)
      ensures this.maxEntries == maxEntries && this.timeout == timeout && entries == map[]
    {
      this.maxEntries, this.timeout, entries := maxEntries, timeout, map[];
    }

    method Insert(id: nat, session: nat, msgId: nat, now: int) returns (ok: bool)
      modifies this
      ensures ok <==> |old(entries)| < maxEntries
      ensures entries == if ok then Inserted(old(entries), id, Entry(session, msgId, now + timeout))
                         else old(entries)
    {
      if |entries| >= maxEntries {
        return false;
      }
      if id !in entries {
        entries := entries[id := Entry(session, msgId, now + timeout)];
      }
      return true;
    }

    method Extract(id: nat) returns (e: Option<Entry>)
      modifies this
      ensures e == if id in old(entries) then Some(old(entries)[id]) else None
      ensures entries == old(entries) - {id}
    {
      if id !in entries {
        assert entries - {id} == entries;
        return None;
      }
      e := Some(entries[id]);
      entries := entries - {id};
    }

    /** Visits every entry once in any order; `called` lists the ids the callback saw. */
    method SweepExpired(now: int) returns (called: seq<nat>)
      modifies this
      ensures entries == old(entries) - Expired(old(entries), now)
      ensures Enumerates(called, Expired(old(entries), now))
    {
      called := [];
      var todo := entries.Keys;
      ghost var before := entries;
      while todo != {}
        invariant todo <= before.Keys
        invariant entries == before - (Expired(before, now) - todo)
        invariant Enumerates(called, Expired(before, now) - todo)
        decreases |todo|
      {
        var id :| id in todo;
        OneVisited(before, now, todo, id);
        if entries[id].deadline <= now {
          called := called + [id];
          entries := entries - {id};
        }
        todo := todo - {id};
      }
      assert Expired(before, now) - todo == Expired(before, now);
    }
  }

  /** Visiting one more entry adds it to the swept ones exactly when it is due. */
  lemma OneVisited(m: Pending, now: int, todo: set<nat>, id: nat)
    requires id in todo && id in m
    ensures var seen := Expired(m, now) - todo;
            && id !in seen
            && Expired(m, now) - (todo - {id}) == (if m[id].deadline <= now then seen + {id} else seen)
            && (m[id].deadline <= now ==> m - seen - {id} == m - (seen + {id}))
  {
  }

  /** `ids` lists exactly the members of `all`, each once. */
  ghost predicate Enumerates(ids: seq<nat>, all: set<nat>) {
    && NoDuplicates(ids)
    && (forall id :: id in ids <==> id in all)
  }
}

/** All cores' request handling, sweeps and Kafka responses as one machine. */
module GatewayCorrelation {
  import opened Wrappers
  import opened PendingRequests

  datatype Config = Config(cores: nat, maxEntries: nat, timeout: int)

  /** A registered request; its index in the list of all registered requests is its ticket. */
  datatype Request = Request(core: nat, session: nat, msgId: nat, corr: nat)

  datatype Outcome = Answered | Undeliverable | TimedOut | RouteFailed

  /** The end of request `ticket`, and whether a frame was queued to the session. */
  datatype Closing = Closing(
    ticket: nat, core: nat, corr: nat, session: nat, msgId: nat, outcome: Outcome, delivered: bool)

  /** A request turned away by a full map, and whether the error frame was queued to its session. */
  datatype Refusal = Refusal(core: nat, session: nat, msgId: nat, delivered: bool)

  /** A response closure posted to a core; `wellFormed` when its payload offset lies inside the payload. */
  datatype Response = Response(core: nat, corr: nat, wellFormed: bool)

  /** `owner` tells, per pending entry, the ticket of the request that stored it; the last three fields are history. */
  datatype State = State(
    counters: seq<nat>, pending: seq<Pending>, owner: seq<map<nat, nat>>, posted: seq<Response>,
    requests: seq<Request>, closings: seq<Closing>, refused: seq<Refusal>)

  /**
   `taken` holds the ids whose frame is queued in this step: the session is found and open and its write queue has
   room when the frame comes, which may differ for two frames to one session.
   */
  datatype Action =
    | Handle(core: nat, session: nat, msgId: nat, now: int, routed: bool, taken: set<nat>)
    | Receive(core: nat, corr: nat, wellFormed: bool)
    | Dispatch(index: nat, taken: set<nat>)
    | Sweep(core: nat, now: int, order: seq<nat>, taken: set<nat>)

  function Initial(c: Config): State {
    State(seq(c.cores, _ => 0), seq(c.cores, _ => map[]), seq(c.cores, _ => map[]), [], [], [], [])
  }

  predicate Shape(c: Config, s: State) {
    |s.counters| == |s.pending| == |s.owner| == c.cores
  }

  ghost predicate Enabled(c: Config, s: State, a: Action)
  {
    && Shape(c, s)
    && match a
       case Handle(k, _, _, _, _, _) => k < c.cores
       case Receive(_, _, _) => true
       case Dispatch(i, _) => i < |s.posted| && s.posted[i].core < c.cores && Owned(s, s.posted[i].core)
       case Sweep(k, now, order, _) => k < c.cores && Owned(s, k) && Enumerates(order, Expired(s.pending[k], now))
  }

  /** Every pending entry has an owner on record. */
  ghost predicate Owned(s: State, k: nat)
    requires k < |s.pending| == |s.owner|
  {
    forall id | id in s.pending[k] :: id in s.owner[k]
  }

  ghost function Apply(c: Config, s: State, a: Action): State
    requires Enabled(c, s, a)
  {
    match a
    case Handle(k, session, msgId, now, routed, taken) => AfterHandle(c, s, k, session, msgId, now, routed, taken)
    case Receive(k, corr, ok) =>
      // corr 0 is a push, and a core out of range is a parse error: neither reaches a pending map.
      if corr == 0 || k >= c.cores then s else s.(posted := s.posted + [Response(k, corr, ok)])
    case Dispatch(i, taken) =>
      var r := s.posted[i];
      var t := s.(posted := s.posted[..i] + s.posted[i + 1..]);
      if r.corr !in s.pending[r.core] then t
      else Close(t, r.core, r.corr, if r.wellFormed then Answered else Undeliverable, taken)
    case Sweep(k, _, order, taken) => AfterSweep(s, k, order, taken)
  }

  function Without(s: State, k: nat, corr: nat): State
    requires k < |s.pending| == |s.owner|
  {
    s.(pending := s.pending[k := s.pending[k] - {corr}], owner := s.owner[k := s.owner[k] - {corr}])
  }

  /** `extract` and, unless the payload was malformed, a frame to the entry's session when that takes it. */
  function Close(s: State, k: nat, corr: nat, outcome: Outcome, taken: set<nat>): State
    requires k < |s.pending| == |s.owner| && corr in s.pending[k] && corr in s.owner[k]
  {
    var e := s.pending[k][corr];
    Without(s, k, corr).(closings := s.closings + [Closing(
      s.owner[k][corr], k, corr, e.session, e.msgId, outcome, outcome != Undeliverable && corr in taken)])
  }

  function Owning(m: map<nat, nat>, corr: nat, ticket: nat): map<nat, nat> {
    m[corr := ticket]
  }

  function Registered(c: Config, s: State, k: nat, session: nat, msgId: nat, now: int): State
    requires k < |s.counters| == |s.pending| == |s.owner|
  {
    var corr := CorrId(k, s.counters[k] + 1);
    s.(counters := s.counters[k := s.counters[k] + 1],
    pending := s.pending[k := Inserted(s.pending[k], corr, Entry(session, msgId, now + c.timeout))],
    owner := if corr in s.pending[k] then s.owner else s.owner[k := Owning(s.owner[k], corr, |s.requests|)],
    requests := s.requests + [Request(k, session, msgId, corr)])
  }

  /** The failed produce: the entry under this id is extracted, whoever stored it, and the requester is told. */
  function RouteFails(s: State, k: nat, ticket: nat, r: Request, taken: set<nat>): State
    requires k < |s.pending| == |s.owner|
  {
    Without(s, k, r.corr).(closings := s.closings +
    [Closing(ticket, k, r.corr, r.session, r.msgId, RouteFailed, r.corr in taken)])
  }

  function AfterHandle(c: Config, s: State, k: nat, session: nat, msgId: nat, now: int, routed: bool, taken: set<nat>)
    : State
    requires k < |s.counters| == |s.pending| == |s.owner|
  {
    if |s.pending[k]| >= c.maxEntries then
      s.(counters := s.counters[k := s.counters[k] + 1],
      refused := s.refused + [Refusal(k, session, msgId, CorrId(k, s.counters[k] + 1) in taken)])
    else
      var u := Registered(c, s, k, session, msgId, now);
      if routed then u else RouteFails(u, k, |s.requests|, u.requests[|s.requests|], taken)
  }

  ghost function AfterSweep(s: State, k: nat, order: seq<nat>, taken: set<nat>): State
    requires k < |s.pending| == |s.owner|
    requires forall id | id in order :: id in s.pending[k] && id in s.owner[k]
    requires NoDuplicates(order)
    ensures var t := AfterSweep(s, k, order, taken); |t.pending| == |t.owner| == |s.pending|
    ensures AfterSweep(s, k, order, taken).pending[k] == s.pending[k] - (set id | id in order)
    ensures AfterSweep(s, k, order, taken).owner[k] == s.owner[k] - (set id | id in order)
    decreases |order|
  {
    if order == [] then assert s.pending[k] - {} == s.pending[k] && s.owner[k] - {} == s.owner[k]; s
    else
      var t := AfterSweep(s, k, order[..|order| - 1], taken);
      Close(t, k, order[|order| - 1], TimedOut, taken)
  }

  ghost function Exec(c: Config, s: State, acts: seq<Action>): Option<State>
    decreases |acts|
  {
    if acts == [] then Some(s)
    else
      var p := Exec(c, s, acts[..|acts| - 1]);
      var a := acts[|acts| - 1];
      if p.Some? && Enabled(c, p.value, a) then Some(Apply(c, p.value, a)) else None
  }

  ghost predicate Reaches(c: Config, acts: seq<Action>, s: State) {
    Exec(c, Initial(c), acts) == Some(s)
  }

  // ---- What holds in every run, however long ----

  predicate Closed(s: State, ticket: nat) {
    exists i | 0 <= i < |s.closings| :: s.closings[i].ticket == ticket
  }

  /** A pending entry belongs to an unclosed registered request with that core, session, message and id. */
  predicate EntryOk(s: State, k: nat, id: nat) {
    k < |s.pending| && k < |s.owner| && id in s.pending[k] ==>
      && id in s.owner[k] && s.owner[k][id] < |s.requests|
      && s.requests[s.owner[k][id]] == Request(k, s.pending[k][id].session, s.pending[k][id].msgId, id)
      && !Closed(s, s.owner[k][id])
  }

  predicate ClosingOk(s: State, i: nat) {
    i < |s.closings| ==>
      && var z := s.closings[i];
      && z.ticket < |s.requests|
      && s.requests[z.ticket] == Request(z.core, z.session, z.msgId, z.corr)
      && (FromResponse(z.outcome) ==> z.corr != 0)
  }

  predicate FromResponse(o: Outcome) {
    o.Answered? || o.Undeliverable?
  }

  predicate ClosedOnce(s: State, i: nat, j: nat) {
    i < j < |s.closings| ==> s.closings[i].ticket != s.closings[j].ticket
  }

  predicate PostOk(c: Config, s: State, i: nat) {
    i < |s.posted| ==> s.posted[i].core < c.cores && s.posted[i].corr != 0
  }

  ghost predicate Inv(c: Config, s: State) {
    && Shape(c, s)
    && (forall k: nat, id: nat :: EntryOk(s, k, id))
    && (forall i: nat :: ClosingOk(s, i))
    && (forall i: nat, j: nat :: ClosedOnce(s, i, j))
    && (forall i: nat :: PostOk(c, s, i))
  }

  lemma InvOwns(c: Config, s: State, k: nat)
    requires Inv(c, s) && k < c.cores
    ensures Owned(s, k)
  {
    forall id | id in s.pending[k] ensures id in s.owner[k] {
      assert EntryOk(s, k, id);
    }
  }

  lemma ClosedGrows(s: State, t: State, z: Closing, ticket: nat)
    requires t.closings == s.closings + [z]
    ensures Closed(t, ticket) <==> Closed(s, ticket) || ticket == z.ticket
  {
    if Closed(s, ticket) {
      var i :| 0 <= i < |s.closings| && s.closings[i].ticket == ticket;
      assert t.closings[i].ticket == ticket;
    }
    assert t.closings[|s.closings|] == z;
    if Closed(t, ticket) && ticket != z.ticket {
      var i :| 0 <= i < |t.closings| && t.closings[i].ticket == ticket;
      assert s.closings[i].ticket == ticket;
    }
  }

  /** Taking the entry under an id out and recording the end of a request that stores no other entry. */
  lemma EndKeepsInv(c: Config, s: State, t: State, z: Closing)
    requires Inv(c, s) && z.core < c.cores && z.ticket < |s.requests| && !Closed(s, z.ticket)
    requires s.requests[z.ticket] == Request(z.core, z.session, z.msgId, z.corr)
    requires FromResponse(z.outcome) ==> z.corr != 0
    requires t == Without(s, z.core, z.corr).(closings := s.closings + [z])
    ensures Inv(c, t)
  {
    forall k: nat, id: nat ensures EntryOk(t, k, id) {
      assert EntryOk(s, k, id);
      if k < c.cores && id in s.owner[k] {
        ClosedGrows(s, t, z, s.owner[k][id]);
      }
    }
    forall i: nat ensures ClosingOk(t, i) {
      assert ClosingOk(s, i);
    }
    forall i: nat, j: nat ensures ClosedOnce(t, i, j) {
      assert ClosedOnce(s, i, j);
      if i < |s.closings| {
        assert s.closings[i].ticket != z.ticket;
      }
    }
    forall i: nat ensures PostOk(c, t, i) {
      assert PostOk(c, s, i);
    }
  }

  lemma CloseKeepsInv(c: Config, s: State, k: nat, corr: nat, outcome: Outcome, taken: set<nat>)
    requires Inv(c, s) && k < c.cores && corr in s.pending[k] && corr in s.owner[k]
    requires FromResponse(outcome) ==> corr != 0
    ensures Inv(c, Close(s, k, corr, outcome, taken))
  {
    var t := Close(s, k, corr, outcome, taken);
    assert EntryOk(s, k, corr);
    EndKeepsInv(c, s, t, t.closings[|s.closings|]);
  }

  /** Counters, posted closures and refusals may change freely. */
  lemma BookkeepingKeepsInv(c: Config, s: State, t: State)
    requires Inv(c, s) && |t.counters| == c.cores
    requires t == s.(counters := t.counters, posted := t.posted, refused := t.refused)
    requires forall i: nat :: PostOk(c, t, i)
    ensures Inv(c, t)
  {
    forall k: nat, id: nat ensures EntryOk(t, k, id) {
      assert EntryOk(s, k, id);
      assert forall ticket: nat :: Closed(t, ticket) <==> Closed(s, ticket);
    }
    forall i: nat ensures ClosingOk(t, i) {
      assert ClosingOk(s, i);
    }
    forall i: nat, j: nat ensures ClosedOnce(t, i, j) {
      assert ClosedOnce(s, i, j);
    }
  }

  lemma NewTicketIsOpen(c: Config, s: State)
    requires Inv(c, s)
    ensures !Closed(s, |s.requests|)
  {
    forall i | 0 <= i < |s.closings| ensures s.closings[i].ticket != |s.requests| {
      assert ClosingOk(s, i);
    }
  }

  lemma RegisterKeepsInv(c: Config, s: State, k: nat, session: nat, msgId: nat, now: int)
    requires Inv(c, s) && k < c.cores
    ensures Inv(c, Registered(c, s, k, session, msgId, now))
  {
    var t := Registered(c, s, k, session, msgId, now);
    NewTicketIsOpen(c, s);
    assert forall ticket: nat :: Closed(t, ticket) <==> Closed(s, ticket);
    forall j: nat, id: nat ensures EntryOk(t, j, id) {
      assert EntryOk(s, j, id);
    }
    forall i: nat ensures ClosingOk(t, i) {
      assert ClosingOk(s, i);
    }
    forall i: nat, j: nat ensures ClosedOnce(t, i, j) {
      assert ClosedOnce(s, i, j);
    }
    forall i: nat ensures PostOk(c, t, i) {
      assert PostOk(c, s, i);
    }
  }

  lemma HandleKeepsInv(c: Config, s: State, k: nat, session: nat, msgId: nat, now: int, routed: bool, taken: set<nat>)
    requires Inv(c, s) && k < c.cores
    ensures Inv(c, AfterHandle(c, s, k, session, msgId, now, routed, taken))
  {
    var t := AfterHandle(c, s, k, session, msgId, now, routed, taken);
    if |s.pending[k]| >= c.maxEntries {
      forall i: nat ensures PostOk(c, t, i) {
        assert PostOk(c, s, i);
      }
      BookkeepingKeepsInv(c, s, t);
    } else {
      var u := Registered(c, s, k, session, msgId, now);
      RegisterKeepsInv(c, s, k, session, msgId, now);
      if !routed {
        NewTicketIsOpen(c, s);
        assert Closed(u, |s.requests|) <==> Closed(s, |s.requests|);
        EndKeepsInv(c, u, t, t.closings[|s.closings|]);
      }
    }
  }

  lemma {:induction false} SweepKeepsInv(c: Config, s: State, k: nat, order: seq<nat>, taken: set<nat>)
    requires Inv(c, s) && k < c.cores
    requires forall id | id in order :: id in s.pending[k] && id in s.owner[k]
    requires NoDuplicates(order)
    ensures Inv(c, AfterSweep(s, k, order, taken))
    decreases |order|
  {
    if order == [] {
    } else {
      SweepKeepsInv(c, s, k, order[..|order| - 1], taken);
      CloseKeepsInv(c, AfterSweep(s, k, order[..|order| - 1], taken), k, order[|order| - 1], TimedOut, taken);
    }
  }

  lemma StepKeepsInv(c: Config, s: State, a: Action)
    requires Inv(c, s) && Enabled(c, s, a)
    ensures Inv(c, Apply(c, s, a))
  {
    var t := Apply(c, s, a);
    match a {
      case Handle(k, session, msgId, now, routed, taken) => HandleKeepsInv(c, s, k, session, msgId, now, routed, taken);
      case Receive(_, _, _) =>
        forall i: nat ensures PostOk(c, t, i) {
          assert PostOk(c, s, i);
        }
        BookkeepingKeepsInv(c, s, t);
      case Dispatch(i, taken) =>
        var r := s.posted[i];
        var u := s.(posted := s.posted[..i] + s.posted[i + 1..]);
        forall j: nat ensures PostOk(c, u, j) {
          assert PostOk(c, s, j) && PostOk(c, s, j + 1);
        }
        BookkeepingKeepsInv(c, s, u);
        assert PostOk(c, s, i);
        if r.corr in s.pending[r.core] {
          CloseKeepsInv(c, u, r.core, r.corr, if r.wellFormed then Answered else Undeliverable, taken);
        }
      case Sweep(k, _, order, taken) => SweepKeepsInv(c, s, k, order, taken);
    }
  }

  lemma {:induction false} RunsKeepInv(c: Config, s: State, acts: seq<Action>)
    requires Inv(c, s) && Exec(c, s, acts).Some?
    ensures Inv(c, Exec(c, s, acts).value)
    decreases |acts|
  {
    if acts == [] {
    } else {
      RunsKeepInv(c, s, acts[..|acts| - 1]);
      StepKeepsInv(c, Exec(c, s, acts[..|acts| - 1]).value, acts[|acts| - 1]);
    }
  }

  lemma ReachedInv(c: Config, acts: seq<Action>, s: State)
    requires Reaches(c, acts, s)
    ensures Inv(c, s)
  {
    var s0 := Initial(c);
    assert forall k: nat, id: nat :: EntryOk(s0, k, id);
    RunsKeepInv(c, s0, acts);
  }

  /** Every registered request is closed at most once, by response, timeout or route failure, in runs of any length. */
  lemma ClosedAtMostOnce(c: Config, acts: seq<Action>, s: State, i: nat, j: nat)
    requires Reaches(c, acts, s)
    requires i < |s.closings| && j < |s.closings| && s.closings[i].ticket == s.closings[j].ticket
    ensures i == j
  {
    ReachedInv(c, acts, s);
    assert ClosedOnce(s, i, j);
    assert ClosedOnce(s, j, i);
  }

  /** The frame that ends a request goes to the session, on the core, that made it, and names its message. */
  lemma FrameGoesToRequester(c: Config, acts: seq<Action>, s: State, i: nat)
    requires Reaches(c, acts, s) && i < |s.closings|
    ensures var z := s.closings[i];
            z.ticket < |s.requests| && s.requests[z.ticket] == Request(z.core, z.session, z.msgId, z.corr)
  {
    ReachedInv(c, acts, s);
    assert ClosingOk(s, i);
  }

  // ---- Exactly when a request can get its own answer ----

  /** The entry under this id on core k was stored by this request. */
  predicate Stored(s: State, k: nat, id: nat, ticket: nat) {
    k < |s.pending| && k < |s.owner| && id in s.pending[k] && id in s.owner[k] && s.owner[k][id] == ticket
  }

  predicate ClosedAs(s: State, ticket: nat, outcome: Outcome) {
    exists i | 0 <= i < |s.closings| :: s.closings[i].ticket == ticket && s.closings[i].outcome == outcome
  }

  /**
   What `handle_request` makes of s. A full map only numbers the request and tells its session. Otherwise a routed
   request gets its own entry if and only if its id is not pending, and a failed route tells the requester and leaves
   the pending maps as they were under the same condition.
   */
  ghost predicate Handled(
    c: Config, s: State, t: State, k: nat, session: nat, msgId: nat, now: int, routed: bool, taken: set<nat>)
    requires k < |s.counters| == |s.pending|
  {
    var corr, ticket := CorrId(k, s.counters[k] + 1), |s.requests|;
    && t.counters == s.counters[k := s.counters[k] + 1] && t.posted == s.posted && |t.pending| == |s.pending|
    && if |s.pending[k]| >= c.maxEntries then
         && t.refused == s.refused + [Refusal(k, session, msgId, corr in taken)]
         && t.pending == s.pending && t.requests == s.requests && t.closings == s.closings
       else
         && t.refused == s.refused && t.requests == s.requests + [Request(k, session, msgId, corr)]
         && if routed then
              && t.closings == s.closings
              && (Stored(t, k, corr, ticket) <==> corr !in s.pending[k])
              && t.pending[k] == Inserted(s.pending[k], corr, Entry(session, msgId, now + c.timeout))
            else
              && t.closings == s.closings + [Closing(ticket, k, corr, session, msgId, RouteFailed, corr in taken)]
              && (t.pending == s.pending <==> corr !in s.pending[k])
  }

  lemma HandleEffect(
    c: Config, acts: seq<Action>, s: State, k: nat, session: nat, msgId: nat, now: int, routed: bool, taken: set<nat>)
    requires Reaches(c, acts, s) && k < c.cores
    ensures Shape(c, s)
    ensures var t := AfterHandle(c, s, k, session, msgId, now, routed, taken);
            Handled(c, s, t, k, session, msgId, now, routed, taken)
  {
    ReachedInv(c, acts, s);
    HandleEffectFrom(c, s, k, session, msgId, now, routed, taken);
  }

  lemma HandleEffectFrom(
    c: Config, s: State, k: nat, session: nat, msgId: nat, now: int, routed: bool, taken: set<nat>)
    requires Inv(c, s) && k < c.cores
    ensures var t := AfterHandle(c, s, k, session, msgId, now, routed, taken);
            Handled(c, s, t, k, session, msgId, now, routed, taken)
  {
    if |s.pending[k]| < c.maxEntries {
      var corr := CorrId(k, s.counters[k] + 1);
      var u := Registered(c, s, k, session, msgId, now);
      RegisteredStores(c, s, k, session, msgId, now);
      if !routed {
        assert u.pending[k] - {corr} == s.pending[k] - {corr};
        FailureEvicts(s.pending, k, corr);
      }
    }
  }

  lemma RegisteredStores(c: Config, s: State, k: nat, session: nat, msgId: nat, now: int)
    requires Inv(c, s) && k < c.cores
    ensures var corr := CorrId(k, s.counters[k] + 1);
            Stored(Registered(c, s, k, session, msgId, now), k, corr, |s.requests|) <==> corr !in s.pending[k]
  {
    assert EntryOk(s, k, CorrId(k, s.counters[k] + 1));
  }

  lemma FailureEvicts(ps: seq<Pending>, k: nat, corr: nat)
    requires k < |ps|
    ensures ps[k := ps[k] - {corr}] == ps <==> corr !in ps[k]
  {
    if corr !in ps[k] {
      assert ps[k] - {corr} == ps[k];
    } else {
      assert corr !in ps[k := ps[k] - {corr}][k];
    }
  }

  /** A request that is neither closed nor stored anywhere. */
  ghost predicate Lost(s: State, ticket: nat) {
    && ticket < |s.requests| && !Closed(s, ticket)
    && forall k: nat, id: nat :: !Stored(s, k, id, ticket)
  }

  lemma EndKeepsLost(s: State, t: State, z: Closing, ticket: nat)
    requires z.core < |s.pending| == |s.owner| && Lost(s, ticket) && z.ticket != ticket
    requires t == Without(s, z.core, z.corr).(closings := s.closings + [z])
    ensures Lost(t, ticket)
  {
    ClosedGrows(s, t, z, ticket);
    forall k: nat, id: nat ensures !Stored(t, k, id, ticket) {
      assert !Stored(s, k, id, ticket);
    }
  }

  lemma CloseKeepsLost(s: State, k: nat, corr: nat, outcome: Outcome, taken: set<nat>, ticket: nat)
    requires k < |s.pending| == |s.owner| && corr in s.pending[k] && corr in s.owner[k] && Lost(s, ticket)
    ensures Lost(Close(s, k, corr, outcome, taken), ticket)
  {
    var t := Close(s, k, corr, outcome, taken);
    assert !Stored(s, k, corr, ticket);
    EndKeepsLost(s, t, t.closings[|s.closings|], ticket);
  }

  lemma {:induction false} SweepKeepsLost(s: State, k: nat, order: seq<nat>, taken: set<nat>, ticket: nat)
    requires k < |s.pending| == |s.owner| && Lost(s, ticket)
    requires forall id | id in order :: id in s.pending[k] && id in s.owner[k]
    requires NoDuplicates(order)
    ensures Lost(AfterSweep(s, k, order, taken), ticket)
    decreases |order|
  {
    if order == [] {
    } else {
      SweepKeepsLost(s, k, order[..|order| - 1], taken, ticket);
      CloseKeepsLost(AfterSweep(s, k, order[..|order| - 1], taken), k, order[|order| - 1], TimedOut, taken, ticket);
    }
  }

  lemma HandleKeepsLost(
    c: Config, s: State, k: nat, session: nat, msgId: nat, now: int, routed: bool, taken: set<nat>, ticket: nat)
    requires Shape(c, s) && k < c.cores && Lost(s, ticket)
    ensures Lost(AfterHandle(c, s, k, session, msgId, now, routed, taken), ticket)
  {
    var t := AfterHandle(c, s, k, session, msgId, now, routed, taken);
    var u := if |s.pending[k]| >= c.maxEntries then t else Registered(c, s, k, session, msgId, now);
    assert Closed(u, ticket) <==> Closed(s, ticket);
    forall j: nat, id: nat ensures !Stored(u, j, id, ticket) {
      assert !Stored(s, j, id, ticket);
    }
    assert Lost(u, ticket);
    if u != t {
      EndKeepsLost(u, t, t.closings[|s.closings|], ticket);
    }
  }

  lemma StepKeepsLost(c: Config, s: State, a: Action, ticket: nat)
    requires Enabled(c, s, a) && Lost(s, ticket)
    ensures Lost(Apply(c, s, a), ticket)
  {
    match a {
      case Handle(k, session, msgId, now, routed, taken) =>
        HandleKeepsLost(c, s, k, session, msgId, now, routed, taken, ticket);
      case Receive(_, _, _) => LostElsewhere(s, Apply(c, s, a), ticket);
      case Dispatch(i, taken) =>
        var r := s.posted[i];
        var u := s.(posted := s.posted[..i] + s.posted[i + 1..]);
        LostElsewhere(s, u, ticket);
        if r.corr in s.pending[r.core] {
          CloseKeepsLost(u, r.core, r.corr, if r.wellFormed then Answered else Undeliverable, taken, ticket);
        }
      case Sweep(k, _, order, taken) => SweepKeepsLost(s, k, order, taken, ticket);
    }
  }

  lemma LostElsewhere(s: State, t: State, ticket: nat)
    requires Lost(s, ticket) && t == s.(posted := t.posted)
    ensures Lost(t, ticket)
  {
    assert Closed(t, ticket) <==> Closed(s, ticket);
    forall k: nat, id: nat ensures !Stored(t, k, id, ticket) {
      assert !Stored(s, k, id, ticket);
    }
  }

  /** A lost request is never closed, in no continuation. */
  lemma {:induction false} LostForever(c: Config, s: State, acts: seq<Action>, ticket: nat)
    requires Exec(c, s, acts).Some? && Lost(s, ticket)
    ensures Lost(Exec(c, s, acts).value, ticket)
    decreases |acts|
  {
    if acts == [] {
    } else {
      LostForever(c, s, acts[..|acts| - 1], ticket);
      StepKeepsLost(c, Exec(c, s, acts[..|acts| - 1]).value, acts[|acts| - 1], ticket);
    }
  }

  /** A registered request stays on record. */
  lemma {:induction false} RecordStays(c: Config, s: State, acts: seq<Action>)
    requires Exec(c, s, acts).Some?
    ensures s.requests <= Exec(c, s, acts).value.requests
    decreases |acts|
  {
    if acts == [] {
    } else {
      RecordStays(c, s, acts[..|acts| - 1]);
      StepKeepsRecord(c, Exec(c, s, acts[..|acts| - 1]).value, acts[|acts| - 1]);
    }
  }

  lemma StepKeepsRecord(c: Config, s: State, a: Action)
    requires Enabled(c, s, a)
    ensures s.requests <= Apply(c, s, a).requests
  {
    if a.Sweep? {
      SweepEffect(s, a.core, a.order, a.taken);
    }
  }

  /** Sweeping a list of entries closes their requests in order, each with a timeout frame to its own session. */
  lemma {:induction false} SweepEffect(s: State, k: nat, order: seq<nat>, taken: set<nat>)
    requires k < |s.pending| == |s.owner|
    requires forall id | id in order :: id in s.pending[k] && id in s.owner[k]
    requires NoDuplicates(order)
    ensures var t := AfterSweep(s, k, order, taken);
            && |t.closings| == |s.closings| + |order| && t.closings[..|s.closings|] == s.closings
            && (forall i | 0 <= i < |order| :: t.closings[|s.closings| + i] == Expiry(s, k, order[i], taken))
    ensures var t := AfterSweep(s, k, order, taken);
            && t.requests == s.requests && t.posted == s.posted && t.counters == s.counters && t.refused == s.refused
            && (forall j | 0 <= j < |s.pending| && j != k :: t.pending[j] == s.pending[j])
    decreases |order|
  {
    if order == [] {
    } else {
      SweepEffect(s, k, order[..|order| - 1], taken);
    }
  }

  function Expiry(s: State, k: nat, id: nat, taken: set<nat>): Closing
    requires k < |s.pending| == |s.owner| && id in s.pending[k] && id in s.owner[k]
  {
    var e := s.pending[k][id];
    Closing(s.owner[k][id], k, id, e.session, e.msgId, TimedOut, id in taken)
  }

  lemma ExecOne(c: Config, s: State, a: Action)
    requires Enabled(c, s, a)
    ensures Exec(c, s, [a]) == Some(Apply(c, s, a))
  {
    assert [a][..0] == [];
    assert Exec(c, s, []) == Some(s);
  }

  lemma ExecMore(c: Config, s: State, acts: seq<Action>, t: State, a: Action)
    requires Exec(c, s, acts) == Some(t) && Enabled(c, t, a)
    ensures Exec(c, s, acts + [a]) == Some(Apply(c, t, a))
  {
    assert (acts + [a])[..|acts|] == acts;
  }

  /** A stored request with a non-zero id is answered by a response that names its core and id. */
  lemma AnswerStored(c: Config, s: State, k: nat, id: nat, ticket: nat, taken: set<nat>)
    returns (acts: seq<Action>, t: State)
    requires Inv(c, s) && k < c.cores && Stored(s, k, id, ticket) && id != 0
    ensures Exec(c, s, acts) == Some(t) && acts != [] && acts[|acts| - 1].Dispatch?
    ensures var e := s.pending[k][id];
            t.closings == s.closings + [Closing(ticket, k, id, e.session, e.msgId, Answered, id in taken)]
    ensures t.requests == s.requests && ClosedAs(t, ticket, Answered)
  {
    var a, b := Receive(k, id, true), Dispatch(|s.posted|, taken);
    var u := Apply(c, s, a);
    ExecOne(c, s, a);
    StepKeepsInv(c, s, a);
    InvOwns(c, u, k);
    acts, t := [a] + [b], Apply(c, u, b);
    ExecMore(c, s, [a], u, b);
    assert t.closings[|s.closings|].ticket == ticket;
  }

  lemma {:induction false} Listed(all: set<nat>) returns (order: seq<nat>)
    ensures Enumerates(order, all)
    decreases all
  {
    if all == {} {
      order := [];
    } else {
      var x :| x in all;
      var rest := Listed(all - {x});
      order := rest + [x];
    }
  }

  /** A stored request is timed out by a sweep at its deadline. */
  lemma ExpireStored(c: Config, s: State, k: nat, id: nat, ticket: nat) returns (acts: seq<Action>)
    requires Inv(c, s) && k < c.cores && Stored(s, k, id, ticket)
    ensures Exec(c, s, acts).Some? && ClosedAs(Exec(c, s, acts).value, ticket, TimedOut)
  {
    var now := s.pending[k][id].deadline;
    var order := Listed(Expired(s.pending[k], now));
    InvOwns(c, s, k);
    acts := [Sweep(k, now, order, {})];
    ExecOne(c, s, acts[0]);
    SweepEffect(s, k, order, {});
    assert id in order;
    var i :| 0 <= i < |order| && order[i] == id;
    assert Apply(c, s, acts[0]).closings[|s.closings| + i] == Expiry(s, k, id, {});
  }

  /**
   The exact condition, in runs of any length: after a routed request was registered it can still be timed out if and
   only if its id was not pending at that moment, and can still be answered if and only if moreover its id is not 0.
   */
  lemma OwnAnswerIff(
    c: Config, acts: seq<Action>, s: State, k: nat, session: nat, msgId: nat, now: int, taken: set<nat>)
    requires Reaches(c, acts, s) && k < c.cores && Shape(c, s) && |s.pending[k]| < c.maxEntries
    ensures var t, corr := AfterHandle(c, s, k, session, msgId, now, true, taken), CorrId(k, s.counters[k] + 1);
            && ((exists more :: CanEnd(c, t, more, |s.requests|, TimedOut)) <==> corr !in s.pending[k])
            && ((exists more :: CanEnd(c, t, more, |s.requests|, Answered)) <==> corr !in s.pending[k] && corr != 0)
  {
    ReachedInv(c, acts, s);
    var t, corr := AfterHandle(c, s, k, session, msgId, now, true, taken), CorrId(k, s.counters[k] + 1);
    var ticket := |s.requests|;
    HandleKeepsInv(c, s, k, session, msgId, now, true, taken);
    if corr in s.pending[k] {
      DuplicateIsLost(c, s, k, session, msgId, now);
      forall more, o | CanEnd(c, t, more, ticket, o) ensures false {
        LostForever(c, t, more, ticket);
      }
    } else {
      var more := ExpireStored(c, t, k, corr, ticket);
      assert CanEnd(c, t, more, ticket, TimedOut);
      if corr != 0 {
        var others, _ := AnswerStored(c, t, k, corr, ticket, taken);
        assert CanEnd(c, t, others, ticket, Answered);
      } else {
        forall more ensures !CanEnd(c, t, more, ticket, Answered) {
          PushIsNoAnswer(c, t, more, ticket);
        }
      }
    }
  }

  ghost predicate CanEnd(c: Config, s: State, acts: seq<Action>, ticket: nat, o: Outcome) {
    Exec(c, s, acts).Some? && ClosedAs(Exec(c, s, acts).value, ticket, o)
  }

  /** A request registered under an id that is still pending is lost at once. */
  lemma DuplicateIsLost(c: Config, s: State, k: nat, session: nat, msgId: nat, now: int)
    requires Inv(c, s) && k < c.cores && CorrId(k, s.counters[k] + 1) in s.pending[k]
    ensures Lost(Registered(c, s, k, session, msgId, now), |s.requests|)
  {
    var t := Registered(c, s, k, session, msgId, now);
    NewTicketIsOpen(c, s);
    assert Closed(t, |s.requests|) <==> Closed(s, |s.requests|);
    forall j: nat, id: nat ensures !Stored(t, j, id, |s.requests|) {
      assert EntryOk(s, j, id);
    }
  }

  /** Id 0 is taken for a push, so a request that got it is never answered by a response. */
  lemma PushIsNoAnswer(c: Config, s: State, acts: seq<Action>, ticket: nat)
    requires Inv(c, s) && ticket < |s.requests| && s.requests[ticket].corr == 0
    ensures !CanEnd(c, s, acts, ticket, Answered)
  {
    if Exec(c, s, acts).Some? {
      var t := Exec(c, s, acts).value;
      RunsKeepInv(c, s, acts);
      RecordStays(c, s, acts);
      forall i | 0 <= i < |t.closings| && t.closings[i].ticket == ticket ensures !t.closings[i].outcome.Answered? {
        assert ClosingOk(t, i);
      }
    }
  }

  /** A sweep at `now` closes exactly the entries of its core that are due, each with a frame to its own session. */
  lemma SweepClosesExpired(c: Config, s: State, k: nat, now: int, order: seq<nat>, taken: set<nat>)
    requires Enabled(c, s, Sweep(k, now, order, taken))
    ensures var t, due := Apply(c, s, Sweep(k, now, order, taken)), Expired(s.pending[k], now);
            && t.pending == s.pending[k := s.pending[k] - due] && t.requests == s.requests && t.posted == s.posted
            && |t.closings| == |s.closings| + |due| && t.closings[..|s.closings|] == s.closings
            && (forall id | id in due :: Expiry(s, k, id, taken) in t.closings[|s.closings|..])
            && (forall z | z in t.closings[|s.closings|..] :: z.corr in due && z == Expiry(s, k, z.corr, taken))
  {
    var due := Expired(s.pending[k], now);
    SweptPending(s, k, order, taken, due);
    EnumerationSize(order, due);
    var ends := SweptEnds(s, k, order, taken);
    ExpiriesMatch(s, k, order, due, ends, taken);
    assert (s.closings + ends)[..|s.closings|] == s.closings && (s.closings + ends)[|s.closings|..] == ends;
  }

  lemma SweptPending(s: State, k: nat, order: seq<nat>, taken: set<nat>, due: set<nat>)
    requires k < |s.pending| == |s.owner| && Enumerates(order, due)
    requires forall id | id in order :: id in s.pending[k] && id in s.owner[k]
    ensures AfterSweep(s, k, order, taken).pending == s.pending[k := s.pending[k] - due]
  {
    SweepEffect(s, k, order, taken);
    assert (set id | id in order) == due;
    var left, right := AfterSweep(s, k, order, taken).pending, s.pending[k := s.pending[k] - due];
    assert forall j | 0 <= j < |s.pending| :: left[j] == right[j];
  }

  lemma SweptEnds(s: State, k: nat, order: seq<nat>, taken: set<nat>) returns (ends: seq<Closing>)
    requires k < |s.pending| == |s.owner|
    requires forall id | id in order :: id in s.pending[k] && id in s.owner[k]
    requires NoDuplicates(order)
    ensures var t := AfterSweep(s, k, order, taken);
            t.closings == s.closings + ends && t.requests == s.requests && t.posted == s.posted
    ensures |ends| == |order| && forall i | 0 <= i < |order| :: ends[i] == Expiry(s, k, order[i], taken)
  {
    SweepEffect(s, k, order, taken);
    ends := AfterSweep(s, k, order, taken).closings[|s.closings|..];
  }

  lemma ExpiriesMatch(s: State, k: nat, order: seq<nat>, due: set<nat>, ends: seq<Closing>, taken: set<nat>)
    requires k < |s.pending| == |s.owner| && Enumerates(order, due) && |ends| == |order|
    requires forall id | id in due :: id in s.pending[k] && id in s.owner[k]
    requires forall i | 0 <= i < |order| :: order[i] in due && ends[i] == Expiry(s, k, order[i], taken)
    ensures forall id | id in due :: Expiry(s, k, id, taken) in ends
    ensures forall z | z in ends :: z.corr in due && z == Expiry(s, k, z.corr, taken)
  {
    forall id | id in due ensures Expiry(s, k, id, taken) in ends {
      assert id in order;
      var i :| 0 <= i < |order| && order[i] == id;
      assert ends[i] == Expiry(s, k, id, taken);
    }
  }

  lemma {:induction false} EnumerationSize(order: seq<nat>, all: set<nat>)
    requires Enumerates(order, all)
    ensures |order| == |all|
    decreases |order|
  {
    if order == [] {
      assert all == {};
    } else {
      var n := |order| - 1;
      assert forall id :: id in order[..n] <==> id in all && id != order[n] by {
        assert order == order[..n] + [order[n]];
      }
      assert order[n] in order;
      EnumerationSize(order[..n], all - {order[n]});
    }
  }
}
