/**
 The per-session write queue and the coroutine that pumps it to the socket. A step runs from one suspension point
 to the next; senders, write completions and close interleave freely between steps.
 */
module WritePump {
  import opened Wrappers

  type Data = seq<int>

  /** `id` numbers the accepted requests; an awaited request carries a completion signal. */
  datatype Request = Request(id: nat, data: Data, awaited: bool)

  datatype Reply = Sent | SendFailed

  datatype Refusal = SessionClosed | BufferFull

  /** A pump coroutine: spawned and not yet started, or suspended in a socket write. */
  datatype Pump = Spawned | Writing(request: Request)

  /**
   `running` is the source's flag; `pumps` the coroutines that exist. `accepted`, `handed` and `wrote` record the
   requests queued, those given to the socket, and the ids whose write succeeded.
   */
  datatype State = State(
    open: bool, depth: nat, queue: seq<Request>, running: bool, pumps: seq<Pump>, told: map<nat, Reply>,
    accepted: seq<Request>, handed: seq<Request>, wrote: set<nat>)

  datatype Action =
    | Send(data: Data)
    | SendAwait(data: Data)
    | Start(pump: nat)
    | Complete(pump: nat, ok: bool)
    | Close

  function Initial(depth: nat): State {
    State(true, depth, [], false, [], map[], [], [], {})
  }

  predicate Enabled(s: State, a: Action) {
    match a
    case Send(_) => true
    case SendAwait(_) => true
    case Start(i) => i < |s.pumps| && s.pumps[i].Spawned?
    case Complete(i, _) => i < |s.pumps| && s.pumps[i].Writing?
    case Close => true
  }

  function Apply(s: State, a: Action): State
    requires Enabled(s, a)
  {
    match a
    case Send(d) => if !s.open || |s.queue| >= s.depth then s else Accepted(s, d, false)
    case SendAwait(d) => if |s.queue| >= s.depth then s else Accepted(s, d, true)
    case Start(i) => LoopHead(s, i)
    case Complete(i, ok) => if ok then LoopHead(Succeeded(s, s.pumps[i].request), i) else Failed(s, i)
    case Close => s.(open := false)
  }

  function Accepted(s: State, d: Data, awaited: bool): State {
    var r := Request(|s.accepted|, d, awaited);
    s.(queue := s.queue + [r], accepted := s.accepted + [r], running := true,
    pumps := if s.running then s.pumps else s.pumps + [Spawned])
  }

  /** The pump's loop test: hand over the next request or end the coroutine. */
  function LoopHead(s: State, i: nat): State
    requires i < |s.pumps|
  {
    if s.queue != [] && s.open then
      s.(queue := s.queue[1..], handed := s.handed + [s.queue[0]], pumps := s.pumps[i := Writing(s.queue[0])])
    else
      s.(running := false, pumps := Without(s.pumps, i))
  }

  function Without(pumps: seq<Pump>, i: nat): seq<Pump>
    requires i < |pumps|
  {
    pumps[..i] + pumps[i + 1..]
  }

  function Succeeded(s: State, r: Request): State {
    s.(wrote := s.wrote + {r.id}, told := Signal(s.told, r, Sent))
  }

  function Failed(s: State, i: nat): State
    requires i < |s.pumps| && s.pumps[i].Writing?
  {
    s.(told := SignalAll(Signal(s.told, s.pumps[i].request, SendFailed), s.queue),
    queue := [], open := false, running := false, pumps := Without(s.pumps, i))
  }

  function Signal(told: map<nat, Reply>, r: Request, reply: Reply): map<nat, Reply> {
    if r.awaited then told[r.id := reply] else told
  }

  function SignalAll(told: map<nat, Reply>, queue: seq<Request>): map<nat, Reply> {
    if queue == [] then told
    else Signal(SignalAll(told, queue[..|queue| - 1]), queue[|queue| - 1], SendFailed)
  }

  function Exec(s: State, acts: seq<Action>): Option<State>
    decreases |acts|
  {
    if acts == [] then Some(s)
    else
      var p := Exec(s, acts[..|acts| - 1]);
      var a := acts[|acts| - 1];
      if p.Some? && Enabled(p.value, a) then Some(Apply(p.value, a)) else None
  }

  // ---- The session object ----

  class Session {
    const depth: nat
    var open: bool
    var queue: seq<Request>
    var running: bool
    var pumps: seq<Pump>
    var told: map<nat, Reply>
    ghost var accepted: seq<Request>
    ghost var handed: seq<Request>
    ghost var wrote: set<nat>
    var nextId: nat

    ghost predicate Valid()
      reads this
    {
      nextId == |accepted|
    }

    ghost function View(): State
      reads this
    {
      State(open, depth, queue, running, pumps, told, accepted, handed, wrote)
    }

    constructor (depth: nat)
      ensures Valid() && View() == Initial(depth)
    {
      this.depth, open, queue, running, pumps, told := depth, true, [], false, [], map[];
      accepted, handed, wrote, nextId := [], [], {}, 0;
    }

    method Push(data: Data, awaited: bool)
      requires Valid()
      modifies this
      ensures Valid() && View() == Accepted(old(View()), data, awaited)
    {
      var r := Request(nextId, data, awaited);
      queue, accepted, nextId := queue + [r], accepted + [r], nextId + 1;
      if !running {
        running := true;
        pumps := pumps + [Spawned];
      }
    }

    method EnqueueWrite(data: Data) returns (refused: Option<Refusal>)
      requires Valid()
      modifies this
      ensures Valid() && View() == Apply(old(View()), Send(data))
      ensures refused == if !old(open) then Some(SessionClosed)
                         else if |old(queue)| >= depth then Some(BufferFull) else None
    {
      if !open {
        return Some(SessionClosed);
      }
      if |queue| >= depth {
        return Some(BufferFull);
      }
      Push(data, false);
      return None;
    }

    /** Queues a request and leaves the sender waiting; unlike `EnqueueWrite` it does not look at `open`. */
    method EnqueueAndAwait(data: Data) returns (refused: Option<Refusal>)
      requires Valid()
      modifies this
      ensures Valid() && View() == Apply(old(View()), SendAwait(data))
      ensures refused == if |old(queue)| >= depth then Some(BufferFull) else None
    {
      if |queue| >= depth {
        return Some(BufferFull);
      }
      Push(data, true);
      return None;
    }

    method CloseSession()
      requires Valid()
      modifies this
      ensures Valid() && View() == Apply(old(View()), Close)
    {
      open := false;
    }

    method Turn(i: nat)
      requires Valid() && i < |pumps|
      modifies this
      ensures Valid() && View() == LoopHead(old(View()), i)
    {
      if queue != [] && open {
        var r := queue[0];
        queue, handed, pumps := queue[1..], handed + [r], pumps[i := Writing(r)];
      } else {
        running, pumps := false, pumps[..i] + pumps[i + 1..];
      }
    }

    method Resume(i: nat)
      requires Valid() && i < |pumps| && pumps[i].Spawned?
      modifies this
      ensures Valid() && View() == Apply(old(View()), Start(i))
    {
      Turn(i);
    }

    method WriteCompleted(i: nat, ok: bool)
      requires Valid() && i < |pumps| && pumps[i].Writing?
      modifies this
      ensures Valid() && View() == Apply(old(View()), Complete(i, ok))
    {
      var r := pumps[i].request;
      if !ok {
        told := Signal(told, r, SendFailed);
        ghost var before := told;
        var k := 0;
        while k < |queue|
          invariant k <= |queue|
          invariant View() == old(View()).(told := SignalAll(before, queue[..k])) && Valid()
        {
          assert queue[..k + 1][..k] == queue[..k];
          told := Signal(told, queue[k], SendFailed);
          k := k + 1;
        }
        assert queue[..k] == queue;
        queue, open, running, pumps := [], false, false, pumps[..i] + pumps[i + 1..];
      } else {
        wrote, told := wrote + {r.id}, Signal(told, r, Sent);
        Turn(i);
      }
    }
  }

  // ---- Invariant ----

  /** One pump at most, existing exactly when the flag is set; an open session with queued data has one. */
  predicate PumpInv(s: State) {
    && |s.pumps| == (if s.running then 1 else 0)
    && (s.open && s.queue != [] ==> s.running)
  }

  /** What was accepted is what was handed over, then what an error discarded, then the queue. */
  predicate OrderInv(s: State) {
    && |s.handed| + |s.queue| <= |s.accepted|
    && s.handed == s.accepted[..|s.handed|]
    && s.queue == s.accepted[|s.accepted| - |s.queue|..]
    && (s.open ==> |s.handed| + |s.queue| == |s.accepted|)
  }

  predicate IdsInv(s: State) {
    forall k | 0 <= k < |s.accepted| :: s.accepted[k].id == k
  }

  /** The write in flight, if any; `PumpInv` leaves no room for a second one. */
  predicate Busy(s: State) {
    |s.pumps| == 1 && s.pumps[0].Writing?
  }

  /** Request k is still under way: queued, or being written. */
  predicate Pending(s: State, k: nat) {
    |s.accepted| - |s.queue| <= k || (Busy(s) && s.pumps[0].request.id == k)
  }

  predicate InFlightInv(s: State) {
    Busy(s) ==> s.handed != [] && s.pumps[0].request == s.handed[|s.handed| - 1]
  }

  /** An awaiting sender has its reply exactly when its request is no longer pending; `Sent` means written. */
  predicate ReplyOk(s: State, k: nat) {
    && (k in s.told <==> k < |s.accepted| && s.accepted[k].awaited && !Pending(s, k))
    && (k in s.told && s.told[k] == Sent ==> k in s.wrote)
    && (k in s.wrote ==> k < |s.handed| && !Pending(s, k))
  }

  ghost predicate ReplyInv(s: State) {
    forall k: nat :: ReplyOk(s, k)
  }

  ghost predicate Inv(s: State) {
    PumpInv(s) && OrderInv(s) && IdsInv(s) && InFlightInv(s) && ReplyInv(s)
  }

  /** Signalling a queue of consecutive ids reaches its awaited requests and nobody else. */
  lemma {:induction false} SignalAllReaches(told: map<nat, Reply>, queue: seq<Request>, base: nat)
    requires forall j | 0 <= j < |queue| :: queue[j].id == base + j
    ensures forall k :: k in SignalAll(told, queue) <==>
                        k in told || (base <= k < base + |queue| && queue[k - base].awaited)
    ensures forall k | k in SignalAll(told, queue) ::
              SignalAll(told, queue)[k] ==
              if base <= k < base + |queue| && queue[k - base].awaited then SendFailed else told[k]
    decreases |queue|
  {
    if queue == [] {
    } else {
      SignalAllReaches(told, queue[..|queue| - 1], base);
    }
  }

  lemma SendKeepsInv(s: State, d: Data, awaited: bool)
    requires Inv(s) && |s.queue| < s.depth && (s.open || awaited)
    ensures Inv(Accepted(s, d, awaited))
  {
    forall k: nat ensures ReplyOk(Accepted(s, d, awaited), k) {
      assert ReplyOk(s, k);
    }
  }

  lemma LoopHeadKeepsInv(s: State)
    requires PumpInv(s) && OrderInv(s) && IdsInv(s) && |s.pumps| == 1
    requires ReplyInv(s.(pumps := [Spawned]))
    ensures Inv(LoopHead(s, 0))
  {
    var t := LoopHead(s, 0);
    if s.queue != [] && s.open {
      assert s.accepted[|s.handed|] == s.queue[0];
      assert t.handed == t.accepted[..|t.handed|];
    } else {
      assert t.pumps == [];
    }
    forall k: nat ensures ReplyOk(t, k) {
      assert ReplyOk(s.(pumps := [Spawned]), k);
    }
  }

  lemma SuccessAnswers(s: State, k: nat)
    requires Inv(s) && Busy(s)
    ensures ReplyOk(Succeeded(s, s.pumps[0].request).(pumps := [Spawned]), k)
  {
    assert ReplyOk(s, k);
  }

  lemma FailureAnswers(s: State, k: nat)
    requires Inv(s) && Busy(s)
    ensures ReplyOk(Failed(s, 0), k)
  {
    assert ReplyOk(s, k);
    var base := |s.accepted| - |s.queue|;
    SignalAllReaches(Signal(s.told, s.pumps[0].request, SendFailed), s.queue, base);
    assert base <= k < |s.accepted| ==> s.queue[k - base] == s.accepted[k];
    assert Failed(s, 0).pumps == [];
  }

  lemma CompleteKeepsInv(s: State, ok: bool)
    requires Inv(s) && Busy(s)
    ensures Inv(Apply(s, Complete(0, ok)))
  {
    if ok {
      forall k: nat ensures ReplyOk(Succeeded(s, s.pumps[0].request).(pumps := [Spawned]), k) {
        SuccessAnswers(s, k);
      }
      LoopHeadKeepsInv(Succeeded(s, s.pumps[0].request));
    } else {
      forall k: nat ensures ReplyOk(Failed(s, 0), k) {
        FailureAnswers(s, k);
      }
    }
  }

  lemma StepKeepsInv(s: State, a: Action)
    requires Inv(s) && Enabled(s, a)
    ensures Inv(Apply(s, a))
  {
    match a
    case Send(d) => if s.open && |s.queue| < s.depth { SendKeepsInv(s, d, false); }
    case SendAwait(d) => if |s.queue| < s.depth { SendKeepsInv(s, d, true); }
    case Start(_) =>
      assert s.pumps == [Spawned];
      LoopHeadKeepsInv(s);
    case Complete(_, ok) => CompleteKeepsInv(s, ok);
    case Close =>
      forall k: nat ensures ReplyOk(Apply(s, a), k) {
        assert ReplyOk(s, k);
      }
  }

  lemma {:induction false} RunsKeepInv(s: State, acts: seq<Action>)
    requires Inv(s) && Exec(s, acts).Some?
    ensures Inv(Exec(s, acts).value)
    decreases |acts|
  {
    if acts == [] {
    } else {
      RunsKeepInv(s, acts[..|acts| - 1]);
      StepKeepsInv(Exec(s, acts[..|acts| - 1]).value, acts[|acts| - 1]);
    }
  }

  ghost predicate Reaches(depth: nat, acts: seq<Action>, s: State) {
    Exec(Initial(depth), acts) == Some(s)
  }

  // ---- Main results ----

  /** What the invariant says about the queue and the pumps. */
  lemma InvOrders(s: State)
    requires Inv(s)
    ensures s.handed <= s.accepted && (s.open ==> s.accepted == s.handed + s.queue)
    ensures s.open && s.pumps == [] ==> s.queue == []
    ensures |s.pumps| <= 1
  {
  }

  /** What the invariant says about request k. */
  lemma InvAnswers(s: State, k: nat)
    requires Inv(s)
    ensures k in s.told && s.told[k] == Sent ==>
              k in s.wrote && k < |s.handed| && s.handed[k].id == k && s.handed[k].awaited
    ensures k < |s.accepted| && s.accepted[k].awaited ==> (k in s.told <==> !Pending(s, k))
  {
    assert ReplyOk(s, k);
  }

  lemma ReachedInv(depth: nat, acts: seq<Action>, s: State)
    requires Reaches(depth, acts, s)
    ensures Inv(s)
  {
    RunsKeepInv(Initial(depth), acts);
  }

  /** At most one write is in flight, and an open session without a pump has nothing queued. */
  lemma OneWriteInFlight(depth: nat, acts: seq<Action>, s: State, i: nat, j: nat)
    requires Reaches(depth, acts, s)
    ensures i < |s.pumps| && j < |s.pumps| && s.pumps[i].Writing? && s.pumps[j].Writing? ==> i == j
    ensures s.open && s.pumps == [] ==> s.queue == []
  {
    ReachedInv(depth, acts, s);
    InvOrders(s);
  }

  /** The socket receives accepted requests only, each once and in the order of acceptance. */
  lemma HandedIsPrefixOfAccepted(depth: nat, acts: seq<Action>, s: State)
    requires Reaches(depth, acts, s)
    ensures s.handed <= s.accepted
    ensures s.open ==> s.accepted == s.handed + s.queue
  {
    ReachedInv(depth, acts, s);
    InvOrders(s);
  }

  /** A sender is told `Sent` only when its own request was handed to the socket and that write succeeded. */
  lemma SentMeansWritten(depth: nat, acts: seq<Action>, s: State, k: nat)
    requires Reaches(depth, acts, s) && k in s.told && s.told[k] == Sent
    ensures k in s.wrote && k < |s.handed| && s.handed[k].id == k && s.handed[k].awaited
  {
    ReachedInv(depth, acts, s);
    InvAnswers(s, k);
  }

  /** Every awaiting sender is either answered or its request is still queued or in flight. */
  lemma NoReplyLost(depth: nat, acts: seq<Action>, s: State, k: nat)
    requires Reaches(depth, acts, s) && k < |s.accepted| && s.accepted[k].awaited
    ensures k in s.told <==> !Pending(s, k)
  {
    ReachedInv(depth, acts, s);
    InvAnswers(s, k);
  }

  // ---- Data, from the senders to the socket ----

  /** The requests of a run: a send is accepted if the session is open and not full, an awaiting one if not full. */
  function Requested(depth: nat, acts: seq<Action>): seq<Request>
    requires Exec(Initial(depth), acts).Some?
    decreases |acts|
  {
    if acts == [] then []
    else
      var before, a := acts[..|acts| - 1], acts[|acts| - 1];
      var s, so := Exec(Initial(depth), before).value, Requested(depth, before);
      if a.Send? && s.open && |s.queue| < depth then so + [Request(|so|, a.data, false)]
      else if a.SendAwait? && |s.queue| < depth then so + [Request(|so|, a.data, true)]
      else so
  }

  lemma StepAccepts(s: State, a: Action)
    requires Enabled(s, a)
    ensures var t := Apply(s, a);
            && t.depth == s.depth
            && t.accepted == (if a.Send? && s.open && |s.queue| < s.depth then
                                s.accepted + [Request(|s.accepted|, a.data, false)]
                              else if a.SendAwait? && |s.queue| < s.depth then
                                s.accepted + [Request(|s.accepted|, a.data, true)]
                              else s.accepted)
  {
  }

  /** What was accepted is what was sent, each with its own data, and the socket is handed a prefix of it. */
  lemma {:induction false} AcceptedIsRequested(depth: nat, acts: seq<Action>, s: State)
    requires Reaches(depth, acts, s)
    ensures s.accepted == Requested(depth, acts) && s.handed <= Requested(depth, acts) && s.depth == depth
    ensures s.open ==> Requested(depth, acts) == s.handed + s.queue
    decreases |acts|
  {
    if acts == [] {
    } else {
      var p := Exec(Initial(depth), acts[..|acts| - 1]).value;
      AcceptedIsRequested(depth, acts[..|acts| - 1], p);
      StepAccepts(p, acts[|acts| - 1]);
    }
    HandedIsPrefixOfAccepted(depth, acts, s);
  }

  // ---- Which queued senders can still be answered ----

  predicate Stranded(s: State) {
    !s.open && !Busy(s)
  }

  lemma StepKeepsStranded(s: State, a: Action)
    requires Inv(s) && Enabled(s, a) && Stranded(s)
    ensures Stranded(Apply(s, a)) && Apply(s, a).told == s.told
  {
  }

  lemma {:induction false} StrandedForever(s: State, acts: seq<Action>)
    requires Inv(s) && Exec(s, acts).Some? && Stranded(s)
    ensures Stranded(Exec(s, acts).value) && Exec(s, acts).value.told == s.told
    decreases |acts|
  {
    if acts == [] {
    } else {
      var p := Exec(s, acts[..|acts| - 1]).value;
      StrandedForever(s, acts[..|acts| - 1]);
      RunsKeepInv(s, acts[..|acts| - 1]);
      StepKeepsStranded(p, acts[|acts| - 1]);
    }
  }

  lemma ExecOne(s: State, a: Action)
    requires Enabled(s, a)
    ensures Exec(s, [a]) == Some(Apply(s, a))
  {
    assert [a][..0] == [];
    assert Exec(s, []) == Some(s);
  }

  lemma ExecTwo(s: State, a: Action, b: Action)
    requires Enabled(s, a) && Enabled(Apply(s, a), b)
    ensures Exec(s, [a, b]) == Some(Apply(Apply(s, a), b))
  {
    ExecOne(s, a);
    assert [a, b][..1] == [a];
  }

  /** From any state that is not stranded, a queued sender is answered within two steps. */
  lemma AnswerInTwo(s: State, k: nat) returns (acts: seq<Action>)
    requires Inv(s) && !Stranded(s) && |s.accepted| - |s.queue| <= k < |s.accepted| && s.accepted[k].awaited
    ensures Exec(s, acts).Some? && k in Exec(s, acts).value.told
  {
    if Busy(s) {
      acts := [Complete(0, false)];
      ExecOne(s, acts[0]);
      StepKeepsInv(s, acts[0]);
      assert ReplyOk(Apply(s, acts[0]), k);
    } else {
      acts := [Start(0), Complete(0, false)];
      StepKeepsInv(s, acts[0]);
      var t := Apply(s, acts[0]);
      StepKeepsInv(t, acts[1]);
      ExecTwo(s, acts[0], acts[1]);
      assert ReplyOk(Apply(t, acts[1]), k);
    }
  }

  /**
   The exact condition for a hang: a queued awaiting sender can still be answered if and only if the session is
   open or a write is in flight.
   */
  lemma AnswerableIffNotStranded(depth: nat, acts: seq<Action>, s: State, k: nat)
    requires Reaches(depth, acts, s)
    requires |s.accepted| - |s.queue| <= k < |s.accepted| && s.accepted[k].awaited
    ensures (exists more :: Exec(s, more).Some? && k in Exec(s, more).value.told) <==> s.open || Busy(s)
  {
    ReachedInv(depth, acts, s);
    InvAnswers(s, k);
    if Stranded(s) {
      forall more | Exec(s, more).Some? ensures k !in Exec(s, more).value.told {
        StrandedForever(s, more);
      }
    } else {
      var more := AnswerInTwo(s, k);
    }
  }

  /** Stranding happens: close during a write that then succeeds leaves the sender behind it waiting for good. */
  lemma CloseStrandsSender(x: Data, y: Data) returns (acts: seq<Action>, s: State)
    ensures Reaches(2, acts, s) && Stranded(s)
    ensures s.queue == [Request(1, y, true)] && s.told == map[0 := Sent]
  {
    var s0 := Initial(2);
    acts := [SendAwait(x), Start(0)];
    ExecTwo(s0, acts[0], acts[1]);
    s := Apply(Apply(s0, acts[0]), acts[1]);
    ExecMore(s0, acts, SendAwait(y));
    acts, s := acts + [SendAwait(y)], Apply(s, SendAwait(y));
    ExecMore(s0, acts, Close);
    acts, s := acts + [Close], Apply(s, Close);
    assert s.queue == [Request(1, y, true)];
    ExecMore(s0, acts, Complete(0, true));
    acts, s := acts + [Complete(0, true)], Apply(s, Complete(0, true));
  }

  lemma ExecMore(s: State, acts: seq<Action>, a: Action)
    requires Exec(s, acts).Some? && Enabled(Exec(s, acts).value, a)
    ensures Exec(s, acts + [a]) == Some(Apply(Exec(s, acts).value, a))
  {
    assert (acts + [a])[..|acts|] == acts;
  }
}
