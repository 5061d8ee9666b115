/**
  Loading a model once: callers, timeouts, cancellations and one background task, interleaved in
  any order (app/core/embedding.py:224-279, 323-358).
 */
module SingleFlight {
  import opened Wrappers

  datatype Model = Model(id: string)
  datatype Metadata = Metadata(device: string)

  datatype Failure = TimedOut | OsFailed | OtherwiseFailed

  /** A background task: its loader runs in a thread, then its result waits for the lock to be published. */
  datatype Task =
    | Running
    | Publishing(model: Model, metadata: Metadata)
    | Succeeded(metadata: Metadata)
    | Failed(failure: Failure)
  {
    predicate Active() { Running? || Publishing? }
  }

  /** A call of `load`: awaiting a task, forgetting a failed one, or over. */
  datatype Call = Awaiting(task: nat) | Forgetting(task: nat) | Returned(metadata: Metadata) | Raised(timeout: bool)

  datatype State = State(model: Option<Model>, metadata: Option<Metadata>, loadTask: Option<nat>, tasks: seq<Task>,
                         calls: seq<Call>)

  const INITIAL := State(None, None, None, [], [])

  /** What the scheduler lets happen next. */
  datatype Event =
    | Load                                         // a new call runs its locked section
    | LoaderReturns(task: nat, model: Model, metadata: Metadata)
    | LoaderFails(task: nat, failure: Failure)
    | Publish(task: nat)                           // the locked section at the end of the task
    | Deliver(call: nat)                           // an awaiting call sees its task done
    | Expire(call: nat)                            // its timeout fires first
    | Cancel(call: nat)                            // it is cancelled while awaiting
    | Forget(call: nat)                            // the locked section of `_forget_failed_task`
    | CancelForget(call: nat)                      // it is cancelled while waiting for that lock

  // ----- the locked sections -----

  /** The section in `load`: the cached metadata, or the task to await, started if there is none. */
  function BeginLoad(s: State): State {
    if s.metadata.Some? then s.(calls := s.calls + [Returned(s.metadata.value)])
    else if s.loadTask.Some? then s.(calls := s.calls + [Awaiting(s.loadTask.value)])
    else s.(loadTask := Some(|s.tasks|), tasks := s.tasks + [Running], calls := s.calls + [Awaiting(|s.tasks|)])
  }

  function PublishTask(s: State, t: nat): State
    requires t < |s.tasks| && s.tasks[t].Publishing?
  {
    s.(model := Some(s.tasks[t].model), metadata := Some(s.tasks[t].metadata), loadTask := None,
       tasks := s.tasks[t := Succeeded(s.tasks[t].metadata)])
  }

  function ForgetTask(s: State, t: nat): Option<nat>
    requires t < |s.tasks|
  {
    if s.loadTask == Some(t) && !s.tasks[t].Active() then None else s.loadTask
  }

  /** The adapter: three fields, changed only in sections that hold the lock. */
  class E5Embedding {
    var model: Option<Model>
    var metadata: Option<Metadata>
    var loadTask: Option<nat>

    constructor ()
      ensures model == None && metadata == None && loadTask == None
    {
      model, metadata, loadTask := None, None, None;
    }

    ghost predicate Is(s: State)
      reads this
    {
      s.model == model && s.metadata == metadata && s.loadTask == loadTask
    }

    /** The locked section of `load`; `start` asks the event loop to start the task `next`. */
    method Begin(next: nat, ghost s: State) returns (call: Call, start: bool)
      requires Is(s) && next == |s.tasks|
      modifies this`loadTask
      ensures Is(BeginLoad(s)) && BeginLoad(s).calls == s.calls + [call]
      ensures BeginLoad(s).tasks == if start then s.tasks + [Running] else s.tasks
    {
      start := false;
      if metadata.Some? { return Returned(metadata.value), false; }
      if loadTask.None? {
        loadTask := Some(next);
        start := true;
      }
      call := Awaiting(loadTask.value);
    }

    /** The locked section of `_load_once`. */
    method PublishLoaded(t: nat, m: Model, data: Metadata, ghost s: State)
      requires Is(s) && t < |s.tasks| && s.tasks[t] == Publishing(m, data)
      modifies this
      ensures Is(PublishTask(s, t))
    {
      model := Some(m);
      metadata := Some(data);
      loadTask := None;
    }

    /** `_forget_failed_task`. */
    method ForgetFailedTask(t: nat, done: bool, ghost s: State)
      requires Is(s) && t < |s.tasks| && done == !s.tasks[t].Active()
      modifies this`loadTask
      ensures Is(s.(loadTask := ForgetTask(s, t)))
    {
      if loadTask == Some(t) && done { loadTask := None; }
    }
  }

  // ----- one step of the scheduler -----

  /** Events that are not enabled change nothing. */
  function Step(s: State, e: Event): State {
    match e
    case Load => BeginLoad(s)
    case LoaderReturns(t, m, data) =>
      if t < |s.tasks| && s.tasks[t].Running? then s.(tasks := s.tasks[t := Publishing(m, data)]) else s
    case LoaderFails(t, f) =>
      if t < |s.tasks| && s.tasks[t].Running? then s.(tasks := s.tasks[t := Failed(f)]) else s
    case Publish(t) =>
      if t < |s.tasks| && s.tasks[t].Publishing? then PublishTask(s, t) else s
    case Deliver(c) =>
      if c < |s.calls| && s.calls[c].Awaiting? && s.calls[c].task < |s.tasks| then
        match s.tasks[s.calls[c].task]
        case Succeeded(data) => s.(calls := s.calls[c := Returned(data)])
        case Failed(f) => s.(calls := s.calls[c := if f.TimedOut? then Raised(true) else Forgetting(s.calls[c].task)])
        case _ => s
      else s
    case Expire(c) =>
      if c < |s.calls| && s.calls[c].Awaiting? then s.(calls := s.calls[c := Raised(true)]) else s
    case Cancel(c) =>
      if c < |s.calls| && s.calls[c].Awaiting? then s.(calls := s.calls[c := Forgetting(s.calls[c].task)]) else s
    case Forget(c) =>
      if c < |s.calls| && s.calls[c].Forgetting? && s.calls[c].task < |s.tasks|
      then s.(loadTask := ForgetTask(s, s.calls[c].task), calls := s.calls[c := Raised(false)]) else s
    case CancelForget(c) =>
      if c < |s.calls| && s.calls[c].Forgetting? then s.(calls := s.calls[c := Raised(false)]) else s
  }

  function Run(s: State, events: seq<Event>): State {
    if events == [] then s else Step(Run(s, events[..|events| - 1]), events[|events| - 1])
  }

  // ----- what every interleaving keeps -----

  ghost predicate Inv(s: State) {
    // the only task that can be active is the one on record
    (forall t :: 0 <= t < |s.tasks| && s.tasks[t].Active() ==> s.loadTask == Some(t)) &&
    // a task on record has not succeeded, and nothing is on record once the model is there
    (s.loadTask.Some? ==> s.loadTask.value < |s.tasks| && !s.tasks[s.loadTask.value].Succeeded? && s.metadata.None?) &&
    // model and metadata come together, from the one task that succeeded
    (s.model.Some? <==> s.metadata.Some?) &&
    (forall t :: 0 <= t < |s.tasks| && s.tasks[t].Succeeded? ==> s.metadata == Some(s.tasks[t].metadata)) &&
    (forall t, u :: 0 <= t < u < |s.tasks| ==> !(s.tasks[t].Succeeded? && s.tasks[u].Succeeded?)) &&
    (s.metadata.Some? ==> exists t :: 0 <= t < |s.tasks| && s.tasks[t].Succeeded?) &&
    // calls await known tasks and return what was published
    (forall c :: 0 <= c < |s.calls| ==>
      match s.calls[c] {
        case Awaiting(t) => t < |s.tasks|
        case Forgetting(t) => t < |s.tasks|
        case Returned(data) => s.metadata == Some(data)
        case Raised(_) => true
      })
  }

  lemma TaskStepKeeps(s: State, e: Event)
    requires Inv(s) && (e.Load? || e.LoaderReturns? || e.LoaderFails? || e.Publish?)
    ensures Inv(Step(s, e))
  {}

  lemma CallStepKeeps(s: State, e: Event)
    requires Inv(s) && !(e.Load? || e.LoaderReturns? || e.LoaderFails? || e.Publish?)
    ensures Inv(Step(s, e))
  {}

  lemma StepKeeps(s: State, e: Event)
    requires Inv(s)
    ensures Inv(Step(s, e))
  {
    if e.Load? || e.LoaderReturns? || e.LoaderFails? || e.Publish? {
      TaskStepKeeps(s, e);
    } else {
      CallStepKeeps(s, e);
    }
  }

  lemma {:induction false} RunKeeps(s: State, events: seq<Event>)
    requires Inv(s)
    ensures Inv(Run(s, events))
  {
    hide Inv, Step;
    if events != [] {
      RunKeeps(s, events[..|events| - 1]);
      StepKeeps(Run(s, events[..|events| - 1]), events[|events| - 1]);
    }
  }

  /**
    In every interleaving at most one loader runs, and model and metadata come together from the one
    task that succeeded.
   */
  lemma SingleFlightAlways(events: seq<Event>)
    ensures var s := Run(INITIAL, events);
            (forall t, u :: 0 <= t < u < |s.tasks| ==> !(s.tasks[t].Active() && s.tasks[u].Active())) &&
            (forall t, u :: 0 <= t < u < |s.tasks| ==> !(s.tasks[t].Succeeded? && s.tasks[u].Succeeded?)) &&
            (s.model.Some? <==> s.metadata.Some?) &&
            (s.metadata.Some? <==> exists t :: 0 <= t < |s.tasks| && s.tasks[t].Succeeded?) &&
            (forall t :: 0 <= t < |s.tasks| && s.tasks[t].Succeeded? ==> s.metadata == Some(s.tasks[t].metadata)) &&
            (forall c :: 0 <= c < |s.calls| && s.calls[c].Returned? ==> s.metadata == Some(s.calls[c].metadata))
  {
    RunKeeps(INITIAL, events);
  }

  lemma LoadedStep(s: State, e: Event)
    requires Inv(s) && s.metadata.Some?
    ensures var s' := Step(s, e);
      s'.model == s.model && s'.metadata == s.metadata && s'.tasks == s.tasks &&
      s'.loadTask == None
  {}

  /** Once loaded, nothing is loaded or set again, and every later call returns the same metadata at once. */
  lemma {:induction false} NoLoadAfterSuccess(s: State, events: seq<Event>)
    requires Inv(s) && s.metadata.Some?
    ensures var s' := Run(s, events);
            s'.model == s.model && s'.metadata == s.metadata && s'.tasks == s.tasks && s'.loadTask == None &&
            Step(s', Load).calls == s'.calls + [Returned(s.metadata.value)]
  {
    hide Inv;
    if events == [] {
      LoadedStep(s, Load);
    } else {
      var n := |events| - 1;
      NoLoadAfterSuccess(s, events[..n]);
      RunKeeps(s, events[..n]);
      LoadedStep(Run(s, events[..n]), events[n]);
    }
  }

  // ----- failures -----

  lemma OffRecordStep(s: State, e: Event, t: nat)
    requires t < |s.tasks| && s.loadTask != Some(t)
    ensures Step(s, e).loadTask != Some(t) && t < |Step(s, e).tasks|
  {}

  /** A task once off the record never comes back: whoever loads next starts afresh. */
  lemma {:induction false} ForgottenForGood(s: State, events: seq<Event>, t: nat)
    requires t < |s.tasks| && s.loadTask != Some(t)
    ensures Run(s, events).loadTask != Some(t) && t < |Run(s, events).tasks|
  {
    hide Step;
    if events != [] {
      ForgottenForGood(s, events[..|events| - 1], t);
      OffRecordStep(Run(s, events[..|events| - 1]), events[|events| - 1], t);
    }
  }

  /** A failed task that some call is about to forget, or that is off the record already. */
  ghost predicate Doomed(s: State, c: nat, t: nat) {
    t < |s.tasks| && s.tasks[t].Failed? && c < |s.calls| && (s.calls[c] == Forgetting(t) || s.loadTask != Some(t))
  }

  lemma DoomedStep(s: State, e: Event, c: nat, t: nat)
    requires Inv(s) && Doomed(s, c, t) && e != CancelForget(c)
    ensures Doomed(Step(s, e), c, t)
  {}

  lemma {:induction false} DoomedRun(s: State, events: seq<Event>, c: nat, t: nat)
    requires Inv(s) && Doomed(s, c, t) && CancelForget(c) !in events
    ensures Doomed(Run(s, events), c, t)
  {
    hide Step, Doomed, Inv;
    if events != [] {
      var n := |events| - 1;
      assert forall e :: e in events[..n] ==> e in events;
      DoomedRun(s, events[..n], c, t);
      RunKeeps(s, events[..n]);
      DoomedStep(Run(s, events[..n]), events[n], c, t);
    }
  }

  /**
    Call `c` is handed the end of its task; later its turn to forget the task comes; both with
    anything around them.
   */
  function Handed(s: State, c: nat, between: seq<Event>, after: seq<Event>): State {
    Run(Step(Run(Step(s, Deliver(c)), between), Forget(c)), after)
  }

  /** However the scheduler goes on, the failed task is off the record once the call has had its turn. */
  ghost predicate AlwaysForgotten(s: State, c: nat, t: nat) {
    forall between: seq<Event>, after: seq<Event> :: CancelForget(c) !in between ==>
      Handed(s, c, between, after).loadTask != Some(t)
  }

  /**
    A later call never awaits a task off the record; with nothing loaded or on record it starts a
    loader of its own.
   */
  lemma LoadsAfresh(s: State, t: nat)
    requires Inv(s) && t < |s.tasks| && s.loadTask != Some(t)
    ensures Last(Step(s, Load).calls) != Awaiting(t)
    ensures s.metadata.None? && s.loadTask.None? ==>
              Step(s, Load).tasks == s.tasks + [Running] && Last(Step(s, Load).calls) == Awaiting(|s.tasks|)
  {}

  function Last(calls: seq<Call>): Call
    requires calls != []
  {
    calls[|calls| - 1]
  }

  lemma HandedForgets(s: State, c: nat, t: nat, between: seq<Event>, after: seq<Event>)
    requires Inv(s) && c < |s.calls| && s.calls[c] == Awaiting(t) && s.tasks[t].Failed? &&
      s.tasks[t].failure != TimedOut
    requires CancelForget(c) !in between
    ensures Inv(Handed(s, c, between, after)) && t < |Handed(s, c, between, after).tasks|
    ensures Handed(s, c, between, after).loadTask != Some(t)
  {
    hide Inv;
    var handed := Step(s, Deliver(c));
    StepKeeps(s, Deliver(c));
    DoomedRun(handed, between, c, t);
    RunKeeps(handed, between);
    var waited := Run(handed, between);
    StepKeeps(waited, Forget(c));
    RunKeeps(Step(waited, Forget(c)), after);
    ForgottenForGood(Step(waited, Forget(c)), after, t);
  }

  /**
    A call is handed the failure of the task on record. In every interleaving the record is clear of
    that task from the call's turn on, and no later call awaits it, exactly when the failure is not
    a timeout.
   */
  lemma HandedFailureClearsIff(s: State, c: nat, t: nat)
    requires Inv(s) && c < |s.calls| && s.calls[c] == Awaiting(t) && s.loadTask == Some(t) && s.tasks[t].Failed?
    ensures AlwaysForgotten(s, c, t) <==> s.tasks[t].failure != TimedOut
    ensures AlwaysForgotten(s, c, t) ==>
              forall between: seq<Event>, after: seq<Event> :: CancelForget(c) !in between ==>
                Last(Step(Handed(s, c, between, after), Load).calls) != Awaiting(t)
  {
    if s.tasks[t].failure == TimedOut {
      HandedAtOnce(s, c);
    } else {
      forall between: seq<Event>, after: seq<Event> | CancelForget(c) !in between
        ensures Handed(s, c, between, after).loadTask != Some(t)
        ensures Last(Step(Handed(s, c, between, after), Load).calls) != Awaiting(t)
      {
        HandedForgets(s, c, t, between, after);
        LoadsAfresh(Handed(s, c, between, after), t);
      }
    }
  }

  lemma HandedAtOnce(s: State, c: nat)
    ensures Handed(s, c, [], []) == Step(Step(s, Deliver(c)), Forget(c))
  {}

  /**
    A cancelled call, once it has its turn, takes a finished task off the record for good, whatever it
    failed with, and leaves one that is still loading to the others.
   */
  lemma CancelledClearsIff(s: State, c: nat, t: nat, after: seq<Event>)
    requires Inv(s) && c < |s.calls| && s.calls[c] == Awaiting(t) && s.loadTask == Some(t)
    ensures var s' := Step(Step(s, Cancel(c)), Forget(c));
            s'.tasks == s.tasks && s'.loadTask == (if s.tasks[t].Active() then Some(t) else None) &&
            (!s.tasks[t].Active() ==> Run(s', after).loadTask != Some(t))
  {
    if !s.tasks[t].Active() { ForgottenForGood(Step(Step(s, Cancel(c)), Forget(c)), after, t); }
  }

  // ----- what a call reports -----

  ghost predicate FailedWith(s: State, timeout: bool) {
    exists t :: 0 <= t < |s.tasks| && s.tasks[t].Failed? && (s.tasks[t].failure == TimedOut <==> timeout)
  }

  /** A call has a reason for what it reports: an expired wait or a cancellation of its own, or a failed load. */
  ghost predicate HasReason(s: State, events: seq<Event>, c: nat)
    requires c < |s.calls|
  {
    match s.calls[c]
    case Awaiting(_) => true
    case Returned(data) => s.metadata == Some(data)
    case Raised(timeout) => if timeout then Expire(c) in events || FailedWith(s, true)
                            else Cancel(c) in events || FailedWith(s, false)
    case Forgetting(_) => Cancel(c) in events || FailedWith(s, false)
  }

  lemma FailuresStay(s: State, e: Event, timeout: bool)
    requires Inv(s) && FailedWith(s, timeout)
    ensures FailedWith(Step(s, e), timeout)
  {
    var t :| 0 <= t < |s.tasks| && s.tasks[t].Failed? && (s.tasks[t].failure == TimedOut <==> timeout);
    assert Step(s, e).tasks[t] == s.tasks[t];
  }

  /** What an event makes of a call that is there. */
  lemma CallStep(s: State, e: Event, c: nat)
    requires Inv(s) && c < |s.calls|
    ensures c < |Step(s, e).calls|
    ensures var before, now := s.calls[c], Step(s, e).calls[c];
            now == before ||
            (before.Awaiting? && e == Expire(c) && now == Raised(true)) ||
            (before.Awaiting? && e == Cancel(c) && now == Forgetting(before.task)) ||
            (before.Forgetting? && now == Raised(false)) ||
            (before.Awaiting? && s.tasks[before.task].Succeeded? && now == Returned(s.tasks[before.task].metadata)) ||
            (before.Awaiting? && s.tasks[before.task].Failed? &&
             now == if s.tasks[before.task].failure == TimedOut then Raised(true) else Forgetting(before.task))
  {}

  lemma ReasonKept(s: State, events: seq<Event>, e: Event, c: nat)
    requires Inv(s) && c < |s.calls| && HasReason(s, events, c)
    ensures c < |Step(s, e).calls| && HasReason(Step(s, e), events + [e], c)
  {
    StepKeeps(s, e);
    CallStep(s, e, c);
    if FailedWith(s, true) { FailuresStay(s, e, true); }
    if FailedWith(s, false) { FailuresStay(s, e, false); }
    var call := s.calls[c];
    if call.Awaiting? {
      assert Inv(s);
      if s.tasks[call.task].Failed? {
        assert FailedWith(s, s.tasks[call.task].failure == TimedOut);
        FailuresStay(s, e, s.tasks[call.task].failure == TimedOut);
      }
    }
    ReturnsMetadata(Step(s, e), c);
    hide FailedWith, Inv, Step;
  }

  lemma ReturnsMetadata(s: State, c: nat)
    requires Inv(s) && c < |s.calls|
    ensures s.calls[c].Returned? ==> s.metadata == Some(s.calls[c].metadata)
  {}

  /** In every interleaving every call has a reason for what it reports. */
  lemma {:induction false} CallsHaveReasons(events: seq<Event>, c: nat)
    requires c < |Run(INITIAL, events).calls|
    ensures HasReason(Run(INITIAL, events), events, c)
  {
    hide HasReason, Inv, Step;
    var n := |events| - 1;
    var before := Run(INITIAL, events[..n]);
    InitialIsFine();
    RunKeeps(INITIAL, events[..n]);
    assert events == events[..n] + [events[n]];
    if c < |before.calls| {
      CallsHaveReasons(events[..n], c);
      ReasonKept(before, events[..n], events[n], c);
    } else {
      NewCall(before, events, events[n], c);
    }
  }

  lemma InitialIsFine()
    ensures Inv(INITIAL)
  {}

  lemma NewCall(s: State, events: seq<Event>, e: Event, c: nat)
    requires Inv(s) && |s.calls| <= c < |Step(s, e).calls|
    ensures HasReason(Step(s, e), events, c)
  {
    StepKeeps(s, e);
  }

  /** A loader that raised a timeout is on record and nobody is about to forget it. */
  ghost predicate Stuck(s: State, t: nat) {
    s.loadTask == Some(t) && t < |s.tasks| && s.tasks[t] == Failed(TimedOut) && s.metadata.None? &&
    (forall u :: 0 <= u < |s.tasks| ==> !s.tasks[u].Active()) &&
    (forall c :: 0 <= c < |s.calls| ==> s.calls[c] != Forgetting(t))
  }

  lemma StuckStep(s: State, e: Event, t: nat)
    requires Stuck(s, t) && !e.Cancel?
    ensures Stuck(Step(s, e), t) && |Step(s, e).tasks| == |s.tasks| && |Step(s, e).calls| >= |s.calls|
    ensures forall c :: |s.calls| <= c < |Step(s, e).calls| ==> Step(s, e).calls[c] == Awaiting(t)
    ensures forall c :: 0 <= c < |s.calls| && s.calls[c] in {Awaiting(t), Raised(true)} ==>
      Step(s, e).calls[c] in {Awaiting(t), Raised(true)}
  {}

  /**
    The negative result is kept: without a cancellation no loader ever starts again, and every
    later call waits for the old failure and then reports a timeout.
   */
  lemma {:induction false} LoaderTimeoutIsKept(s: State, events: seq<Event>, t: nat)
    requires Stuck(s, t) && forall e :: e in events ==> !e.Cancel?
    ensures var s' := Run(s, events);
            Stuck(s', t) && |s'.tasks| == |s.tasks| && |s'.calls| >= |s.calls| &&
            (forall c :: |s.calls| <= c < |s'.calls| ==> s'.calls[c] in {Awaiting(t), Raised(true)})
  {
    hide Step, Stuck;
    if events != [] {
      var n := |events| - 1;
      assert forall e :: e in events[..n] ==> e in events;
      LoaderTimeoutIsKept(s, events[..n], t);
      StuckStep(Run(s, events[..n]), events[n], t);
    }
  }

  /** The first loader raising a timeout is enough to get there. */
  lemma LoaderTimeoutReached()
    ensures Stuck(Run(INITIAL, [Load, LoaderFails(0, TimedOut), Deliver(0)]), 0)
  {
    assert [Load, LoaderFails(0, TimedOut), Deliver(0)][..2] == [Load, LoaderFails(0, TimedOut)];
    assert [Load, LoaderFails(0, TimedOut)][..1] == [Load] && [Load][..0] == [];
  }
}
