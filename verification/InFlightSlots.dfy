/**
 The in-flight slots: cancellable calls, worker threads that outlive their callers, and one bounded
 semaphore. Every interleaving of the steps below is a run.
 */
module InFlightSlots {
  import opened Outcomes

  type CallId = nat

  /**
   Where a call's worker thread is. `Stopped` is a thread whose cancellation check raised; it still
   holds its slot. `Skipped`, `Full` (refused for want of a slot) and `Done` are final.
   */
  datatype Phase = Queued | Skipped | Started | Full | Estimating | Stopped | Cleared | Running | Done
  {
    predicate HoldsSlot() { Estimating? || Stopped? || Cleared? || Running? }

    predicate TookSlot() { HoldsSlot() || Done? }
  }

  datatype Call = Call(phase: Phase, cancelled: bool)

  datatype State = State(bound: nat, free: nat, calls: map<CallId, Call>)
  {
    predicate Is(id: CallId, phase: Phase) { id in calls && calls[id].phase == phase }

    function Holders(): set<CallId> { set id | id in calls && calls[id].phase.HoldsSlot() }

    function Dispatches(): set<CallId> { set id | id in calls && calls[id].phase.Running? }

    function With(id: CallId, phase: Phase): State
      requires id in calls
    {
      this.(calls := calls[id := Call(phase, calls[id].cancelled)])
    }
  }

  datatype Event =
    | Submit(id: CallId)
    | Cancel(id: CallId)
    | PickUp(id: CallId)
    | Acquire(id: CallId)
    | Check(id: CallId)
    | Dispatch(id: CallId)
    | Exit(id: CallId)

  /** What a step does to the world outside the call table. */
  datatype Effect = NoEffect | Took(id: CallId) | GaveBack(id: CallId) | Sent(id: CallId) | TurnedAway(id: CallId)

  function Initial(bound: nat): State { State(bound, bound, map[]) }

  /** One step and its effect; None when the step is not possible. */
  function Step(s: State, e: Event): Option<(State, Effect)> {
    match e
    case Submit(id) => if id in s.calls then None else Some((s.(calls := s.calls[id := Call(Queued, false)]), NoEffect))
    case Cancel(id) =>
      if id !in s.calls then None
      else Some((s.(calls := s.calls[id := s.calls[id].(cancelled := true)]), NoEffect))
    case PickUp(id) =>
      if !s.Is(id, Queued) then None
      else Some((s.With(id, if s.calls[id].cancelled then Skipped else Started), NoEffect))
    case Acquire(id) =>
      if !s.Is(id, Started) then None
      else if s.free == 0 then Some((s.With(id, Full), TurnedAway(id)))
      else Some((s.With(id, Estimating).(free := s.free - 1), Took(id)))
    case Check(id) =>
      if !s.Is(id, Estimating) then None
      else Some((s.With(id, if s.calls[id].cancelled then Stopped else Cleared), NoEffect))
    case Dispatch(id) => if !s.Is(id, Cleared) then None else Some((s.With(id, Running), Sent(id)))
    case Exit(id) =>
      if id !in s.calls || !s.calls[id].phase.HoldsSlot() then None
      else Some((s.With(id, Done).(free := s.free + 1), GaveBack(id)))
  }

  /** `log` is what the run `trace` from the initial state does, and `s` where it ends. */
  ghost predicate Runs(bound: nat, trace: seq<Event>, log: seq<Effect>, s: State)
    decreases |trace|
  {
    if trace == [] then log == [] && s == Initial(bound)
    else
      var n := |trace| - 1;
      && |log| == |trace|
      && exists before :: Runs(bound, trace[..n], log[..n], before) && Step(before, trace[n]) == Some((s, log[n]))
  }

  function Count(log: seq<Effect>, e: Effect): nat {
    if log == [] then 0 else Count(log[..|log| - 1], e) + if log[|log| - 1] == e then 1 else 0
  }

  // ----- every reachable state

  ghost predicate Conserved(s: State) {
    s.free + |s.Holders()| == s.bound
  }

  /** A step touches the call it names and no other. */
  lemma {:induction false} HoldersAfter(s: State, e: Event)
    requires Step(s, e).Some?
    ensures var t := Step(s, e).value.0;
            t.Holders() == if t.calls[e.id].phase.HoldsSlot() then s.Holders() + {e.id} else s.Holders() - {e.id}
  {
    var t := Step(s, e).value.0;
    assert t.calls == s.calls[e.id := t.calls[e.id]];
  }

  lemma {:induction false} StepConserves(s: State, e: Event)
    requires Conserved(s) && Step(s, e).Some?
    ensures Conserved(Step(s, e).value.0) && Step(s, e).value.0.bound == s.bound
  {
    HoldersAfter(s, e);
    var held := e.id in s.calls && s.calls[e.id].phase.HoldsSlot();
    assert e.id in s.Holders() <==> held;
  }

  /** Free slots and holding threads always add up to the bound. */
  lemma {:induction false} SlotsAreConserved(bound: nat, trace: seq<Event>, log: seq<Effect>, s: State)
    requires Runs(bound, trace, log, s)
    ensures s.bound == bound && Conserved(s)
    decreases |trace|
  {
    if trace == [] {
      assert s.Holders() == {};
    } else {
      var n := |trace| - 1;
      var before :| Runs(bound, trace[..n], log[..n], before) && Step(before, trace[n]) == Some((s, log[n]));
      SlotsAreConserved(bound, trace[..n], log[..n], before);
      StepConserves(before, trace[n]);
    }
  }

  /** Dispatched statements, those of cancelled calls included, never exceed the bound. */
  lemma {:induction false} DispatchesAreBounded(bound: nat, trace: seq<Event>, log: seq<Effect>, s: State)
    requires Runs(bound, trace, log, s)
    ensures |s.Dispatches()| <= bound
  {
    SlotsAreConserved(bound, trace, log, s);
    SubsetIsSmaller(s.Dispatches(), s.Holders());
  }

  lemma {:induction false} SubsetIsSmaller<T>(a: set<T>, b: set<T>)
    requires a <= b
    ensures |a| <= |b|
  {
    assert b == a + (b - a);
  }

  /** A call is turned away only while as many others as the bound hold slots. */
  lemma {:induction false} RefusalMeansFull(bound: nat, trace: seq<Event>, log: seq<Effect>, s: State, id: CallId)
    requires Runs(bound, trace, log, s) && s.Is(id, Started)
    ensures Step(s, Acquire(id)).value.1 == TurnedAway(id) <==> |s.Holders() - {id}| == bound
  {
    SlotsAreConserved(bound, trace, log, s);
    assert s.Holders() - {id} == s.Holders();
  }

  // ----- the ledger of one call

  /** A call's entries in the log are fixed by its phase. */
  ghost predicate Ledger(s: State, log: seq<Effect>, id: CallId) {
    var took := id in s.calls && s.calls[id].phase.TookSlot();
    && Count(log, Took(id)) == (if took then 1 else 0)
    && Count(log, GaveBack(id)) == (if s.Is(id, Done) then 1 else 0)
    && Count(log, TurnedAway(id)) == (if s.Is(id, Full) then 1 else 0)
    && Count(log, Sent(id)) <= (if s.Is(id, Running) || s.Is(id, Done) then 1 else 0)
    && (s.Is(id, Running) ==> Count(log, Sent(id)) == 1)
  }

  /**
   Each acquired slot is released exactly once, when its thread exits; a skipped or refused call
   takes and releases none, and no call sends its statement twice.
   */
  lemma {:induction false} SlotsAreReleasedOnce(bound: nat, trace: seq<Event>, log: seq<Effect>, s: State, id: CallId)
    requires Runs(bound, trace, log, s)
    ensures Ledger(s, log, id)
    decreases |trace|
  {
    if trace != [] {
      var n := |trace| - 1;
      var before :| Runs(bound, trace[..n], log[..n], before) && Step(before, trace[n]) == Some((s, log[n]));
      SlotsAreReleasedOnce(bound, trace[..n], log[..n], before, id);
      LedgerStep(before, trace[n], s, log[n], log, id);
    }
  }

  lemma {:induction false} LedgerStep(before: State, e: Event, s: State, effect: Effect, log: seq<Effect>, id: CallId)
    requires log != [] && log[|log| - 1] == effect && Ledger(before, log[..|log| - 1], id)
    requires Step(before, e) == Some((s, effect))
    ensures Ledger(s, log, id)
  {
    if e.id != id {
      assert id in s.calls <==> id in before.calls;
      assert id in s.calls ==> s.calls[id] == before.calls[id];
    }
  }

  // ----- cancellation

  /** Before its check a call is in none of the phases that lead to a dispatch. */
  ghost predicate BeforeCheck(s: State, log: seq<Effect>, id: CallId) {
    !s.Is(id, Cleared) && !s.Is(id, Running) && Sent(id) !in log
  }

  lemma {:induction false} BeforeCheckStep(
    before: State, e: Event, s: State, log: seq<Effect>, effect: Effect, id: CallId)
    requires Step(before, e) == Some((s, effect)) && BeforeCheck(before, log, id)
    requires e != Check(id) || (id in before.calls && before.calls[id].cancelled)
    ensures BeforeCheck(s, log + [effect], id)
    ensures e == Cancel(id) || (id in before.calls && before.calls[id].cancelled) ==>
            id in s.calls && s.calls[id].cancelled
  {
  }

  lemma {:induction false} NoCheckNoDispatch(bound: nat, trace: seq<Event>, log: seq<Effect>, s: State, id: CallId)
    requires Runs(bound, trace, log, s) && Check(id) !in trace
    ensures BeforeCheck(s, log, id)
    decreases |trace|
  {
    if trace != [] {
      var n := |trace| - 1;
      var before :| Runs(bound, trace[..n], log[..n], before) && Step(before, trace[n]) == Some((s, log[n]));
      NoCheckNoDispatch(bound, trace[..n], log[..n], before, id);
      assert trace[n] != Check(id);
      BeforeCheckStep(before, trace[n], s, log[..n], log[n], id);
      assert log == log[..n] + [log[n]];
    }
  }

  /** A call cancelled before its check step never dispatches, whatever else is interleaved. */
  lemma {:induction false} CancelledBeforeCheckNeverDispatches(
    bound: nat, trace: seq<Event>, log: seq<Effect>, s: State, id: CallId, i: nat)
    requires Runs(bound, trace, log, s) && i < |trace|
    requires trace[i] == Cancel(id) && Check(id) !in trace[..i]
    ensures BeforeCheck(s, log, id) && id in s.calls && s.calls[id].cancelled
    decreases |trace|
  {
    var n := |trace| - 1;
    var before :| Runs(bound, trace[..n], log[..n], before) && Step(before, trace[n]) == Some((s, log[n]));
    if i == n {
      NoCheckNoDispatch(bound, trace[..n], log[..n], before, id);
    } else {
      assert trace[..n][..i] == trace[..i];
      CancelledBeforeCheckNeverDispatches(bound, trace[..n], log[..n], before, id, i);
    }
    BeforeCheckStep(before, trace[n], s, log[..n], log[n], id);
    assert log == log[..n] + [log[n]];
  }

  /** Before its pickup a call is in none of the phases that lead to a slot. */
  ghost predicate BeforePickUp(s: State, log: seq<Effect>, id: CallId) {
    (id in s.calls ==> s.calls[id].phase.Queued? || s.calls[id].phase.Skipped?) && Took(id) !in log
  }

  lemma {:induction false} BeforePickUpStep(
    before: State, e: Event, s: State, log: seq<Effect>, effect: Effect, id: CallId)
    requires Step(before, e) == Some((s, effect)) && BeforePickUp(before, log, id)
    requires e != PickUp(id) || (id in before.calls && before.calls[id].cancelled)
    ensures BeforePickUp(s, log + [effect], id)
    ensures e == Cancel(id) || (id in before.calls && before.calls[id].cancelled) ==>
            id in s.calls && s.calls[id].cancelled
  {
  }

  lemma {:induction false} NoPickUpNoSlot(bound: nat, trace: seq<Event>, log: seq<Effect>, s: State, id: CallId)
    requires Runs(bound, trace, log, s) && PickUp(id) !in trace
    ensures BeforePickUp(s, log, id)
    decreases |trace|
  {
    if trace != [] {
      var n := |trace| - 1;
      var before :| Runs(bound, trace[..n], log[..n], before) && Step(before, trace[n]) == Some((s, log[n]));
      NoPickUpNoSlot(bound, trace[..n], log[..n], before, id);
      assert trace[n] != PickUp(id);
      BeforePickUpStep(before, trace[n], s, log[..n], log[n], id);
      assert log == log[..n] + [log[n]];
    }
  }

  /** A cancel before pickup leaks nothing: the function never runs and no slot is ever taken for it. */
  lemma {:induction false} CancelledBeforePickUpTakesNoSlot(
    bound: nat, trace: seq<Event>, log: seq<Effect>, s: State, id: CallId, i: nat)
    requires Runs(bound, trace, log, s) && i < |trace|
    requires trace[i] == Cancel(id) && PickUp(id) !in trace[..i]
    ensures BeforePickUp(s, log, id) && id in s.calls && s.calls[id].cancelled
    decreases |trace|
  {
    var n := |trace| - 1;
    var before :| Runs(bound, trace[..n], log[..n], before) && Step(before, trace[n]) == Some((s, log[n]));
    if i == n {
      NoPickUpNoSlot(bound, trace[..n], log[..n], before, id);
    } else {
      assert trace[..n][..i] == trace[..i];
      CancelledBeforePickUpTakesNoSlot(bound, trace[..n], log[..n], before, id, i);
    }
    BeforePickUpStep(before, trace[n], s, log[..n], log[n], id);
    assert log == log[..n] + [log[n]];
  }

  lemma {:induction false} OneExit(
    bound: nat, trace: seq<Event>, log: seq<Effect>, s: State, id: CallId)
    returns (next: State)
    requires Runs(bound, trace, log, s) && id in s.Holders()
    ensures Runs(bound, trace + [Exit(id)], log + [GaveBack(id)], next)
    ensures next.Holders() == s.Holders() - {id}
  {
    next := s.With(id, Done).(free := s.free + 1);
    var longer, entries := trace + [Exit(id)], log + [GaveBack(id)];
    assert longer[..|trace|] == trace && entries[..|trace|] == log;
  }

  /** The exits already appended to `trace` are continued until no thread holds a slot. */
  lemma {:induction false} ExitsFrom(
    bound: nat, trace: seq<Event>, log: seq<Effect>, s: State, trace': seq<Event>, log': seq<Effect>)
    returns (exits: seq<Event>, entries: seq<Effect>, s': State)
    requires Runs(bound, trace', log', s) && trace <= trace' && log <= log'
    requires forall e <- trace'[|trace|..] :: e.Exit?
    ensures Runs(bound, trace + exits, log + entries, s') && s'.free == bound
    ensures |exits| == |s.Holders()| + |trace'| - |trace| && forall e <- exits :: e.Exit?
    decreases |s.Holders()|
  {
    if s.Holders() == {} {
      SlotsAreConserved(bound, trace', log', s);
      exits, entries, s' := trace'[|trace|..], log'[|log|..], s;
      assert trace + exits == trace' && log + entries == log';
    } else {
      var id :| id in s.Holders();
      var next := OneExit(bound, trace', log', s, id);
      assert (trace' + [Exit(id)])[|trace|..] == trace'[|trace|..] + [Exit(id)];
      exits, entries, s' := ExitsFrom(bound, trace, log, next, trace' + [Exit(id)], log' + [GaveBack(id)]);
    }
  }

  /** No slot is lost: from every reachable state one exit per holding thread frees all of them. */
  lemma {:induction false} SlotsComeBack(bound: nat, trace: seq<Event>, log: seq<Effect>, s: State)
    returns (exits: seq<Event>, entries: seq<Effect>, s': State)
    requires Runs(bound, trace, log, s)
    ensures Runs(bound, trace + exits, log + entries, s') && s'.free == bound
    ensures |exits| == |s.Holders()| && forall e <- exits :: e.Exit?
  {
    exits, entries, s' := ExitsFrom(bound, trace, log, s, trace, log);
  }

  // ----- the server

  /** A bounded semaphore: a release beyond the bound is an error, reported as false. */
  class BoundedSemaphore {
    const bound: nat
    var free: nat

    constructor (bound: nat)
      ensures this.bound == bound && free == bound
    {
      this.bound, free := bound, bound;
    }

    /** Never blocks. */
    method Acquire() returns (ok: bool)
      modifies this
      ensures ok <==> old(free) > 0
      ensures free == old(free) - if ok then 1 else 0
    {
      ok := free > 0;
      if ok {
        free := free - 1;
      }
    }

    method Release() returns (ok: bool)
      modifies this
      ensures ok <==> old(free) < bound
      ensures free == old(free) + if ok then 1 else 0
    {
      ok := free < bound;
      if ok {
        free := free + 1;
      }
    }
  }

  /** The calls and the semaphore they share. Each method is one step of one thread. */
  class Server {
    const slots: BoundedSemaphore
    var calls: map<CallId, Call>

    ghost function View(): State
      reads this, slots
    {
      State(slots.bound, slots.free, calls)
    }

    constructor (bound: nat)
      ensures fresh(slots) && View() == Initial(bound) && Conserved(View())
    {
      slots := new BoundedSemaphore(bound);
      calls := map[];
      new;
      assert View().Holders() == {};
    }

    method Put(id: CallId, phase: Phase)
      requires id in calls
      modifies this
      ensures calls == old(calls)[id := Call(phase, old(calls[id].cancelled))]
    {
      calls := calls[id := Call(phase, calls[id].cancelled)];
    }

    /** The async side hands the job to a worker thread. */
    method SubmitCall(id: CallId)
      requires Conserved(View()) && id !in calls
      modifies this
      ensures Step(old(View()), Submit(id)) == Some((View(), NoEffect)) && Conserved(View())
    {
      StepConserves(View(), Submit(id));
      calls := calls[id := Call(Queued, false)];
    }

    /** A cancellation only marks the call; its thread is abandoned, not stopped. */
    method CancelCall(id: CallId)
      requires Conserved(View()) && id in calls
      modifies this
      ensures Step(old(View()), Cancel(id)) == Some((View(), NoEffect)) && Conserved(View())
    {
      StepConserves(View(), Cancel(id));
      calls := calls[id := calls[id].(cancelled := true)];
    }

    /** A worker thread picks the job up and skips it when its future is already cancelled. */
    method PickUpCall(id: CallId) returns (started: bool)
      requires Conserved(View()) && View().Is(id, Queued)
      modifies this
      ensures Step(old(View()), PickUp(id)) == Some((View(), NoEffect)) && Conserved(View())
      ensures started <==> View().Is(id, Started)
    {
      StepConserves(View(), PickUp(id));
      started := !calls[id].cancelled;
      Put(id, if started then Started else Skipped);
    }

    /** The first thing the function does on its thread. */
    method AcquireSlot(id: CallId) returns (ok: bool)
      requires Conserved(View()) && View().Is(id, Started)
      modifies this, slots
      ensures Step(old(View()), Acquire(id)) == Some((View(), if ok then Took(id) else TurnedAway(id)))
      ensures Conserved(View())
    {
      StepConserves(View(), Acquire(id));
      ok := slots.Acquire();
      Put(id, if ok then Estimating else Full);
    }

    /** The last cooperative cancellation point. */
    method CheckCancelled(id: CallId) returns (raised: bool)
      requires Conserved(View()) && View().Is(id, Estimating)
      modifies this
      ensures Step(old(View()), Check(id)) == Some((View(), NoEffect)) && Conserved(View())
      ensures raised <==> View().Is(id, Stopped)
    {
      StepConserves(View(), Check(id));
      raised := calls[id].cancelled;
      Put(id, if raised then Stopped else Cleared);
    }

    method DispatchStatement(id: CallId)
      requires Conserved(View()) && View().Is(id, Cleared)
      modifies this
      ensures Step(old(View()), Dispatch(id)) == Some((View(), Sent(id))) && Conserved(View())
    {
      StepConserves(View(), Dispatch(id));
      Put(id, Running);
    }

    /** Leaving the function, by return or by exception: the release never fails. */
    method ExitCall(id: CallId) returns (released: bool)
      requires Conserved(View()) && id in calls && calls[id].phase.HoldsSlot()
      modifies this, slots
      ensures released
      ensures Step(old(View()), Exit(id)) == Some((View(), GaveBack(id))) && Conserved(View())
    {
      StepConserves(View(), Exit(id));
      assert id in View().Holders();
      released := slots.Release();
      Put(id, Done);
    }
  }
}
