/**
 One `cross_core_call`: the caller's coroutine, the closure it queues on the target
 core and the shared status word they race on. Every access to the status word, the
 write of the result, and each hand-over of the closure is one step; runs are
 arbitrary sequentially consistent interleavings. The timer may wake the caller at
 any time after the post. The overload for void functions is the case of a unit result.
 */
module CrossCoreCall {
  import opened Wrappers

  type Value = int

  datatype Outcome = Returned(value: Value) | Timeout | FuncException | PostThrew

  datatype CallerPc = Posting | Waiting | Woken | LostRace | Done(outcome: Outcome)

  /** Who owns the heap-allocated closure. */
  datatype Owner = Caller | Queue | Target | Nobody

  /** Where the target core stands inside the closure. */
  datatype TargetPc = Outside | Checking | Invoking | Storing(r: Value) | Succeeding | Failing | Leaving

  /** `wins` lists the successful status transitions; `ran` counts invocations, `writes` result writes, `frees` deletes. */
  datatype State = State(
    caller: CallerPc, target: TargetPc, owner: Owner, status: int, result: Option<Value>,
    wins: seq<int>, ran: nat, produced: Option<Value>, writes: nat, frees: nat)

  const START := State(Posting, Outside, Caller, 0, None, [], 0, None, 0, 0)

  datatype Action =
    | PostOk
    | PostFails
    | Wake
    | CallerStep
    | Dispatch
    | TargetStep(throws: bool, r: Value)
    | Shutdown

  predicate Enabled(s: State, a: Action) {
    match a
    case PostOk => s.caller.Posting?
    case PostFails => s.caller.Posting?
    case Wake => s.caller.Waiting?
    case CallerStep => s.caller.Woken? || s.caller.LostRace?
    case Dispatch => s.owner.Queue? && s.target.Outside?
    case TargetStep(_, _) => !s.target.Outside?
    case Shutdown => s.owner.Queue? && s.target.Outside?
  }

  /** `compare_exchange_strong(0, to)`. */
  function Cas(s: State, to: int): State {
    if s.status == 0 then s.(status := to, wins := s.wins + [to]) else s
  }

  function Apply(s: State, a: Action): State
    requires Enabled(s, a)
  {
    match a
    case PostOk => s.(caller := Waiting, owner := Queue)
    case PostFails => s.(caller := Done(PostThrew), owner := Nobody, frees := s.frees + 1)
    case Wake => s.(caller := Woken)
    case CallerStep => CallerNext(s)
    case Dispatch => s.(owner := Target, target := Checking)
    case TargetStep(throws, r) => TargetNext(s, throws, r)
    case Shutdown => s.(owner := Nobody, frees := s.frees + 1)
  }

  function CallerNext(s: State): State
    requires s.caller.Woken? || s.caller.LostRace?
  {
    if s.caller.Woken? then
      var s' := Cas(s, 2);
      if s.status == 0 then s'.(caller := Done(Timeout)) else s'.(caller := LostRace)
    else if s.status == 3 then s.(caller := Done(FuncException))
    else s.(caller := Done(Returned(if s.result.Some? then s.result.value else 0)))
  }

  /** `throws` and `r` are what the function does when it is invoked, or what storing its result does. */
  function TargetNext(s: State, throws: bool, r: Value): State
    requires !s.target.Outside?
  {
    match s.target
    case Checking => s.(target := if s.status != 0 then Leaving else Invoking)
    case Invoking =>
      if throws then s.(target := Failing, ran := s.ran + 1)
      else s.(target := Storing(r), ran := s.ran + 1, produced := Some(r))
    case Storing(v) =>
      if throws then s.(target := Failing, result := None, writes := s.writes + 1)
      else s.(target := Succeeding, result := Some(v), writes := s.writes + 1)
    case Succeeding => Cas(s, 1).(target := Leaving)
    case Failing => Cas(s, 3).(target := Leaving)
    case Leaving => s.(target := Outside, owner := Nobody, frees := s.frees + 1)
  }

  function Exec(s: State, acts: seq<Action>): Option<State>
    decreases |acts|
  {
    if acts == [] then Some(s)
    else
      var p := Exec(s, acts[..|acts| - 1]);
      var a := acts[|acts| - 1];
      if p.Some? && Enabled(p.value, a) then Some(Apply(p.value, a)) else None
  }

  // ---- Invariant ----

  predicate Before(t: TargetPc) {
    t.Checking? || t.Invoking?
  }

  ghost predicate Inv(s: State) {
    // the status word changes once
    && (s.status == 0 ==> s.wins == []) && (s.status != 0 ==> s.wins == [s.status])
    && 0 <= s.status <= 3
    // the closure has one owner until it is freed
    && (s.owner.Nobody? <==> s.frees == 1) && s.frees <= 1
    && (s.owner.Caller? <==> s.caller.Posting?)
    && (s.owner.Target? <==> !s.target.Outside?)
    // the function runs at most once, and only by the target
    && s.ran <= 1 && s.writes <= s.ran
    && (s.owner.Caller? || s.owner.Queue? || Before(s.target) ==> s.ran == 0)
    && (s.target.Storing? ==> s.ran == 1 && s.writes == 0 && s.produced == Some(s.target.r))
    && (s.target.Succeeding? ==> s.ran == 1 && s.writes == 1 && s.result.Some? && s.result == s.produced)
    && (s.target.Failing? ==> s.ran == 1)
    // a success or failure verdict comes from a closure that is past its last write
    && (s.status == 1 ==> s.writes == 1 && s.result.Some? && s.result == s.produced)
    && (s.status == 1 || s.status == 3 ==> s.ran == 1 && (s.target.Leaving? || s.target.Outside?))
    // the caller's answer follows from the status word
    && (s.caller.LostRace? ==> s.status == 1 || s.status == 3)
    && (s.caller.Posting? || s.caller.Waiting? || s.caller.Woken? ==> s.status != 2)
    && (s.caller.Done? ==>
          match s.caller.outcome
          case Returned(v) => s.status == 1 && s.result == Some(v)
          case Timeout => s.status == 2
          case FuncException => s.status == 3
          case PostThrew => s.status == 0 && s.ran == 0 && s.frees == 1)
    // nothing happened before the closure was queued
    && (s.caller.Posting? ==> s.status == 0 && s.ran == 0 && s.frees == 0)
  }

  lemma StepKeepsInv(s: State, a: Action)
    requires Inv(s) && Enabled(s, a)
    ensures Inv(Apply(s, a))
  {
  }

  lemma {:induction false} RunsKeepInv(acts: seq<Action>)
    requires Exec(START, acts).Some?
    ensures Inv(Exec(START, acts).value)
    decreases |acts|
  {
    if acts == [] {
    } else {
      RunsKeepInv(acts[..|acts| - 1]);
      StepKeepsInv(Exec(START, acts[..|acts| - 1]).value, acts[|acts| - 1]);
    }
  }

  // ---- Main results ----

  /** At most one of the transitions 0 to 1, 0 to 2 and 0 to 3 ever succeeds, and the caller's answer tells which. */
  lemma ExactlyOneTransitionWins(acts: seq<Action>)
    requires Exec(START, acts).Some?
    ensures var s := Exec(START, acts).value;
            && |s.wins| <= 1
            && (s.caller.Done? && !s.caller.outcome.PostThrew? ==>
                  s.wins == [match s.caller.outcome case Returned(_) => 1 case Timeout => 2 case _ => 3])
  {
    RunsKeepInv(acts);
  }

  /** A returned value was produced by the single run of the function and fully written. */
  lemma ReturnedValueIsTheResult(acts: seq<Action>)
    requires Exec(START, acts).Some?
    requires var s := Exec(START, acts).value; s.caller.Done? && s.caller.outcome.Returned?
    ensures var s := Exec(START, acts).value;
            && s.ran == 1 && s.writes == 1
            && s.produced == Some(s.caller.outcome.value) && s.result == s.produced
  {
    RunsKeepInv(acts);
  }

  /** After a value was returned, no continuation of the run writes the result again. */
  lemma {:induction false} NoWriteAfterReturn(acts: seq<Action>, more: seq<Action>)
    requires Exec(START, acts).Some? && Exec(Exec(START, acts).value, more).Some?
    requires var s := Exec(START, acts).value; s.caller.Done? && s.caller.outcome.Returned?
    ensures var s, t := Exec(START, acts).value, Exec(Exec(START, acts).value, more).value;
            Inv(t) && t.caller == s.caller && t.result == s.result && t.writes == s.writes
    decreases |more|
  {
    if more == [] {
      RunsKeepInv(acts);
    } else {
      NoWriteAfterReturn(acts, more[..|more| - 1]);
      StepKeepsInv(Exec(Exec(START, acts).value, more[..|more| - 1]).value, more[|more| - 1]);
    }
  }

  /** The closure is deleted at most once, and is deleted once nobody holds it any more. */
  lemma FreedExactlyOnce(acts: seq<Action>)
    requires Exec(START, acts).Some?
    ensures var s := Exec(START, acts).value;
            && s.frees <= 1
            && (s.frees == 1 <==> !s.caller.Posting? && !s.owner.Queue? && s.target.Outside?)
            && s.ran <= 1
  {
    RunsKeepInv(acts);
  }

  /** Once the status has changed before the target looked at it, the function is not going to run. */
  predicate WillNotRun(s: State) {
    s.status != 0 && s.ran == 0 && !s.target.Invoking?
  }

  lemma {:induction false} NeverRuns(s: State, acts: seq<Action>)
    requires Inv(s) && WillNotRun(s) && Exec(s, acts).Some?
    ensures Inv(Exec(s, acts).value) && WillNotRun(Exec(s, acts).value)
    decreases |acts|
  {
    if acts == [] {
    } else {
      NeverRuns(s, acts[..|acts| - 1]);
      StepKeepsInv(Exec(s, acts[..|acts| - 1]).value, acts[|acts| - 1]);
    }
  }

  /** A timeout leaves open whether the function ran: in one history it never will, in another it already has. */
  lemma TimeoutIsAmbiguous(r: Value) returns (without: seq<Action>, with: seq<Action>)
    ensures Exec(START, without).Some? && Exec(START, with).Some?
    ensures forall more :: Exec(Exec(START, without).value, more).Some? ==>
                             Exec(Exec(START, without).value, more).value.ran == 0
    ensures Exec(START, without).value.caller == Done(Timeout) == Exec(START, with).value.caller
    ensures Exec(START, without).value.ran == 0 && Exec(START, with).value.ran == 1
  {
    without := [PostOk];
    assert Exec(START, []) == Some(START);
    OneMore([], PostOk);
    OneMore(without, Wake);
    without := without + [Wake];
    OneMore(without, CallerStep);
    without := without + [CallerStep];
    var t := Exec(START, without).value;
    RunsKeepInv(without);
    forall more | Exec(t, more).Some? ensures Exec(t, more).value.ran == 0 {
      NeverRuns(t, more);
    }
    with := [PostOk];
    OneMore(with, Dispatch);
    with := with + [Dispatch];
    OneMore(with, TargetStep(false, r));
    with := with + [TargetStep(false, r)];
    OneMore(with, TargetStep(false, r));
    with := with + [TargetStep(false, r)];
    OneMore(with, Wake);
    with := with + [Wake];
    OneMore(with, CallerStep);
    with := with + [CallerStep];
  }

  lemma OneMore(acts: seq<Action>, a: Action)
    requires Exec(START, acts).Some? && Enabled(Exec(START, acts).value, a)
    ensures Exec(START, acts + [a]) == Some(Apply(Exec(START, acts).value, a))
  {
    assert (acts + [a])[..|acts|] == acts;
  }

  // ---- From the function to the caller's answer ----

  /** The state before action k of a run, and after all of it for k == |acts|. */
  ghost function StateAt(acts: seq<Action>, k: nat): State
    requires Exec(START, acts).Some? && k <= |acts|
    decreases |acts|
  {
    if k == |acts| then Exec(START, acts).value else StateAt(acts[..|acts| - 1], k)
  }

  lemma EarlierState(acts: seq<Action>, k: nat)
    requires Exec(START, acts).Some? && k < |acts|
    ensures Exec(START, acts[..|acts| - 1]).Some? && StateAt(acts, k) == StateAt(acts[..|acts| - 1], k)
    ensures StateAt(acts, |acts| - 1) == Exec(START, acts[..|acts| - 1]).value
  {
    var q := acts[..|acts| - 1];
    assert StateAt(acts, |acts| - 1) == StateAt(q, |q|);
  }

  /** Action k is the invocation of the function, the storing of its result, or a try to settle the status. */
  ghost predicate InvokesAt(acts: seq<Action>, k: nat)
    requires Exec(START, acts).Some?
  {
    k < |acts| && acts[k].TargetStep? && StateAt(acts, k).target.Invoking?
  }

  ghost predicate StoresAt(acts: seq<Action>, k: nat)
    requires Exec(START, acts).Some?
  {
    k < |acts| && acts[k].TargetStep? && StateAt(acts, k).target.Storing?
  }

  ghost predicate TargetSettlesAt(acts: seq<Action>, k: nat)
    requires Exec(START, acts).Some?
  {
    k < |acts| && acts[k].TargetStep? && (StateAt(acts, k).target.Succeeding? || StateAt(acts, k).target.Failing?)
  }

  ghost predicate CallerSettlesAt(acts: seq<Action>, k: nat)
    requires Exec(START, acts).Some?
  {
    k < |acts| && acts[k].CallerStep? && StateAt(acts, k).caller.Woken?
  }

  lemma EarlierSteps(acts: seq<Action>, k: nat)
    requires Exec(START, acts).Some? && k + 1 < |acts|
    ensures var q := acts[..|acts| - 1];
            && Exec(START, q).Some?
            && (InvokesAt(acts, k) <==> InvokesAt(q, k)) && (StoresAt(acts, k) <==> StoresAt(q, k))
            && (TargetSettlesAt(acts, k) <==> TargetSettlesAt(q, k))
            && (CallerSettlesAt(acts, k) <==> CallerSettlesAt(q, k))
  {
    EarlierState(acts, k);
  }

  /** What the function and the storing of its result did: nothing yet, returned r and stored it, or threw. */
  datatype Work = NotRun | Ran(r: Value) | Stored(r: Value) | Threw

  /** The work done in a run, told from the target's actions. */
  ghost function WorkOf(acts: seq<Action>): Work
    requires Exec(START, acts).Some?
    decreases |acts|
  {
    if acts == [] then NotRun
    else
      var q, a, n := acts[..|acts| - 1], acts[|acts| - 1], |acts| - 1;
      if InvokesAt(acts, n) then if a.throws then Threw else Ran(a.r)
      else if StoresAt(acts, n) then
        if a.throws then Threw else if WorkOf(q).Ran? then Stored(WorkOf(q).r) else WorkOf(q)
      else WorkOf(q)
  }

  /** How the race for the status stands: open, or settled by the caller or by the target. */
  datatype Race = Undecided | CallerFirst | TargetFirst

  ghost function RaceOf(acts: seq<Action>): Race
    requires Exec(START, acts).Some?
    decreases |acts|
  {
    if acts == [] then Undecided
    else
      var q, n := acts[..|acts| - 1], |acts| - 1;
      if !RaceOf(q).Undecided? then RaceOf(q)
      else if CallerSettlesAt(acts, n) then CallerFirst
      else if TargetSettlesAt(acts, n) then TargetFirst
      else Undecided
  }

  /** Where the target stands, what it did and who settled the status agree. */
  predicate Agrees(s: State, w: Work, race: Race) {
    && (w.NotRun? <==> s.ran == 0)
    && (s.target.Storing? ==> w == Ran(s.target.r))
    && (s.target.Succeeding? ==> w.Stored? && s.result == Some(w.r))
    && (s.target.Failing? ==> w.Threw?)
    && (race.Undecided? <==> s.status == 0) && (race.CallerFirst? <==> s.status == 2)
    && (s.status == 1 ==> w.Stored? && s.result == Some(w.r))
    && (s.status == 3 ==> w.Threw?)
  }

  lemma {:induction false} RunsAgree(acts: seq<Action>)
    requires Exec(START, acts).Some?
    ensures Agrees(Exec(START, acts).value, WorkOf(acts), RaceOf(acts))
    decreases |acts|
  {
    if acts == [] {
    } else {
      var q, a := acts[..|acts| - 1], acts[|acts| - 1];
      RunsAgree(q);
      RunsKeepInv(q);
      EarlierState(acts, |acts| - 1);
      StepAgrees(Exec(START, q).value, a, WorkOf(q), RaceOf(q), WorkOf(acts), RaceOf(acts));
    }
  }

  lemma StepAgrees(s: State, a: Action, w: Work, race: Race, w': Work, race': Race)
    requires Inv(s) && Enabled(s, a) && Agrees(s, w, race)
    requires w' == if a.TargetStep? && s.target.Invoking? then if a.throws then Threw else Ran(a.r)
                   else if a.TargetStep? && s.target.Storing? then
                     if a.throws then Threw else if w.Ran? then Stored(w.r) else w
                   else w
    requires race' == if !race.Undecided? then race
                      else if a.CallerStep? && s.caller.Woken? then CallerFirst
                      else if a.TargetStep? && (s.target.Succeeding? || s.target.Failing?) then TargetFirst
                      else Undecided
    ensures Agrees(Apply(s, a), w', race')
  {
  }

  /**
   The caller's answer, from what happened alone: if the target settled first, the value the function returned or its
   exception; if the caller did, a timeout; and nothing but the exception of the post otherwise.
   */
  lemma AnswerFollowsRace(acts: seq<Action>)
    requires Exec(START, acts).Some? && Exec(START, acts).value.caller.Done?
    ensures var answer := Exec(START, acts).value.caller.outcome;
            match RaceOf(acts)
            case Undecided => answer == PostThrew && WorkOf(acts) == NotRun
            case CallerFirst => answer == Timeout
            case TargetFirst =>
              match WorkOf(acts)
              case Stored(r) => answer == Returned(r)
              case _ => WorkOf(acts) == Threw && answer == FuncException
  {
    RunsAgree(acts);
    RunsKeepInv(acts);
  }

  /** A function that returns, and whose result can be stored, never becomes an exception. */
  lemma NoExceptionUnlessThrown(acts: seq<Action>)
    requires Exec(START, acts).Some? && Exec(START, acts).value.caller == Done(FuncException)
    ensures exists k: nat :: (InvokesAt(acts, k) || StoresAt(acts, k)) && acts[k].throws
  {
    AnswerFollowsRace(acts);
    var k := WhenThrown(acts);
  }

  lemma {:induction false} WhenThrown(acts: seq<Action>) returns (k: nat)
    requires Exec(START, acts).Some? && WorkOf(acts).Threw?
    ensures (InvokesAt(acts, k) || StoresAt(acts, k)) && acts[k].throws
    decreases |acts|
  {
    var n := |acts| - 1;
    if (InvokesAt(acts, n) || StoresAt(acts, n)) && acts[n].throws {
      k := n;
    } else {
      k := WhenThrown(acts[..n]);
      EarlierSteps(acts, k);
    }
  }

  lemma {:induction false} WhenRan(acts: seq<Action>) returns (k: nat)
    requires Exec(START, acts).Some? && !WorkOf(acts).NotRun?
    ensures InvokesAt(acts, k) && (forall j: nat :: InvokesAt(acts, j) ==> j == k)
    ensures WorkOf(acts).Ran? || WorkOf(acts).Stored? ==> acts[k] == TargetStep(false, WorkOf(acts).r)
    decreases |acts|
  {
    var q, n := acts[..|acts| - 1], |acts| - 1;
    RunsAgree(q);
    RunsKeepInv(q);
    EarlierState(acts, n);
    if InvokesAt(acts, n) {
      k := n;
      forall j: nat | InvokesAt(acts, j) ensures j == n {
        if j < n {
          EarlierSteps(acts, j);
          NotRunYet(q, j);
        }
      }
    } else {
      k := WhenRan(q);
      EarlierSteps(acts, k);
      forall j: nat | InvokesAt(acts, j) ensures j == k {
        EarlierSteps(acts, j);
      }
    }
  }

  lemma {:induction false} NotRunYet(acts: seq<Action>, j: nat)
    requires Exec(START, acts).Some? && WorkOf(acts).NotRun?
    ensures !InvokesAt(acts, j)
    decreases |acts|
  {
    if j + 1 < |acts| {
      RunsAgree(acts[..|acts| - 1]);
      NotRunYet(acts[..|acts| - 1], j);
      EarlierSteps(acts, j);
    }
  }

  /** A returned value is what the one invocation of the function returned. */
  lemma ReturnedValueIsTheFunctions(acts: seq<Action>, v: Value) returns (k: nat)
    requires Exec(START, acts).Some? && Exec(START, acts).value.caller == Done(Returned(v))
    ensures InvokesAt(acts, k) && acts[k] == TargetStep(false, v) && forall j: nat :: InvokesAt(acts, j) ==> j == k
  {
    AnswerFollowsRace(acts);
    k := WhenRan(acts);
  }

  /** Once the target has settled first, the caller can only get the function's value, and gets it in three steps. */
  lemma SettledCallReturns(acts: seq<Action>, s: State) returns (more: seq<Action>)
    requires Exec(START, acts) == Some(s) && RaceOf(acts).TargetFirst?
    ensures Exec(START, acts + more).Some? && |more| <= 3
    ensures Exec(START, acts + more).value.caller ==
            Done(match WorkOf(acts) case Stored(r) => Returned(r) case _ => FuncException)
  {
    RunsAgree(acts);
    RunsKeepInv(acts);
    more := [];
    assert acts + more == acts;
    if s.caller.Waiting? {
      more := OneMoreOf(acts, more, Wake);
    }
    if !s.caller.Done? && !s.caller.LostRace? {
      more := OneMoreOf(acts, more, CallerStep);
    }
    if !s.caller.Done? {
      more := OneMoreOf(acts, more, CallerStep);
    } else {
      AnswerFollowsRace(acts);
    }
  }

  lemma OneMoreOf(acts: seq<Action>, more: seq<Action>, a: Action) returns (r: seq<Action>)
    requires Exec(START, acts + more).Some? && Enabled(Exec(START, acts + more).value, a)
    ensures r == more + [a] && Exec(START, acts + r) == Some(Apply(Exec(START, acts + more).value, a))
  {
    r := more + [a];
    OneMore(acts + more, a);
    assert acts + r == acts + more + [a];
  }

  /** The caller sees the post fail exactly when it failed, and then nothing else happens. */
  lemma {:induction false} PostThrewIff(acts: seq<Action>)
    requires Exec(START, acts).Some?
    ensures PostFails in acts <==> Exec(START, acts).value.caller == Done(PostThrew)
    ensures PostFails in acts ==> acts == [PostFails]
    decreases |acts|
  {
    if acts == [] {
    } else {
      var q, a := acts[..|acts| - 1], acts[|acts| - 1];
      PostThrewIff(q);
      RunsKeepInv(q);
      assert acts == q + [a];
      if a.PostFails? {
        OnlyFirst(q);
      }
    }
  }

  /** Nothing happens before the post. */
  lemma {:induction false} OnlyFirst(acts: seq<Action>)
    requires Exec(START, acts).Some? && Exec(START, acts).value.caller.Posting?
    ensures acts == []
    decreases |acts|
  {
    if acts == [] {
    } else {
      OnlyFirst(acts[..|acts| - 1]);
    }
  }

  /** The closure has been deleted exactly when its post failed, the shutdown dropped it or its dispatch is over. */
  lemma {:induction false} ClosureFate(acts: seq<Action>)
    requires Exec(START, acts).Some?
    ensures var s := Exec(START, acts).value;
            && (Dispatch in acts ==> s.owner.Target? || s.owner.Nobody?)
            && (s.frees == 1 <==> PostFails in acts || Shutdown in acts || (Dispatch in acts && s.target.Outside?))
    decreases |acts|
  {
    if acts == [] {
    } else {
      var q, a := acts[..|acts| - 1], acts[|acts| - 1];
      ClosureFate(q);
      RunsKeepInv(q);
      assert acts == q + [a];
      if !Exec(START, q).value.target.Outside? {
        TargetWasDispatched(q);
      }
    }
  }

  lemma {:induction false} TargetWasDispatched(acts: seq<Action>)
    requires Exec(START, acts).Some? && !Exec(START, acts).value.target.Outside?
    ensures Dispatch in acts
    decreases |acts|
  {
    var q, a := acts[..|acts| - 1], acts[|acts| - 1];
    assert acts == q + [a];
    if !a.Dispatch? {
      TargetWasDispatched(q);
    }
  }

  /** For every value: a call whose function returns it in time returns it, and frees the closure. */
  lemma PromptCallReturns(r: Value) returns (acts: seq<Action>)
    ensures Exec(START, acts).Some?
    ensures var s := Exec(START, acts).value; s.caller == Done(Returned(r)) && s.frees == 1 && s.ran == 1
  {
    var s := START;
    acts := [];
    acts, s := Then(acts, s, PostOk);
    acts, s := Then(acts, s, Dispatch);
    acts, s := TargetRuns(acts, s, r);
    acts, s := Then(acts, s, Wake);
    acts, s := Then(acts, s, CallerStep);
    acts, s := Then(acts, s, CallerStep);
  }

  /** The target alone, from the closure's start to its end. */
  lemma TargetRuns(acts: seq<Action>, s: State, r: Value) returns (acts': seq<Action>, t: State)
    requires Exec(START, acts) == Some(s) && s.target.Checking? && s.status == 0
    ensures Exec(START, acts') == Some(t) && t.caller == s.caller && t.status == 1 && t.result == Some(r)
    ensures t.ran == s.ran + 1 && t.frees == s.frees + 1
  {
    var step := TargetStep(false, r);
    acts', t := Then(acts, s, step);
    acts', t := Then(acts', t, step);
    acts', t := Then(acts', t, step);
    acts', t := Then(acts', t, step);
    acts', t := Then(acts', t, step);
  }

  lemma Then(acts: seq<Action>, s: State, a: Action) returns (acts': seq<Action>, t: State)
    requires Exec(START, acts) == Some(s) && Enabled(s, a)
    ensures Exec(START, acts') == Some(t) && t == Apply(s, a)
  {
    OneMore(acts, a);
    acts', t := acts + [a], Apply(s, a);
  }
}
