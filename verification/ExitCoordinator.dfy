/**
 The exit coordinator (src-tauri/src/desktop_lifecycle.rs): five states behind one lock, asked by window
 events, the frontend's decision, request timers and the cleanup that it starts.
 */
module ExitCoordinator {
  import opened Wrappers

  datatype Phase = Running | ClosingMainWindow | AwaitingFrontend | Cleaning | ReadyToExit
  datatype Action = Exit | Restart
  datatype Decision = Proceed | Cancel
  datatype Answer = Prevent | RequestFrontend(requestId: string) | Cleanup | Allow
  datatype LifecycleError = CloseNotAllowed | RequestStale

  datatype Life = Life(phase: Phase, requestId: Option<string>, action: Action)

  const START := Life(Running, None, Exit)

  // ---- Transitions ----

  function Asked(l: Life, hasWindow: bool, action: Action, id: string): (Life, Answer) {
    match l.phase
    case ReadyToExit => (l, Allow)
    case ClosingMainWindow => (l.(phase := Running), Prevent)
    case AwaitingFrontend => (l, Prevent)
    case Cleaning => (l, Prevent)
    case Running =>
      if hasWindow then (Life(AwaitingFrontend, Some(id), action), RequestFrontend(id))
      else (l.(phase := Cleaning, action := action), Cleanup)
  }

  predicate Ending(l: Life) {
    l.phase == Cleaning || l.phase == ReadyToExit
  }

  function CleaningBegun(l: Life, action: Action): (Life, bool) {
    if Ending(l) then (l, false) else (Life(Cleaning, None, action), true)
  }

  predicate Holds(l: Life, id: string) {
    l.phase == AwaitingFrontend && l.requestId == Some(id)
  }

  function Decided(l: Life, id: string, decision: Decision): (Life, Result<bool, LifecycleError>) {
    if !Holds(l, id) then (l, Err(RequestStale))
    else if decision == Proceed then (l.(phase := Cleaning, requestId := None), Ok(true))
    else (START, Ok(false))
  }

  function Expired(l: Life, id: string): Life {
    if Holds(l, id) then START else l
  }

  function Reopened(l: Life): Life {
    if l.phase == ClosingMainWindow then l.(phase := Running) else l
  }

  // ---- The object behind the lock ----

  class Coordinator {
    var phase: Phase
    var exitRequestId: Option<string>
    var completionAction: Action

    ghost function Value(): Life
      reads this
    {
      Life(phase, exitRequestId, completionAction)
    }

    constructor ()
      ensures Value() == START
    {
      phase, exitRequestId, completionAction := Running, None, Exit;
    }

    method BeginMainWindowClose() returns (r: Result<(), LifecycleError>)
      modifies this`phase
      ensures if old(phase) == Running then r.Ok? && Value() == old(Value()).(phase := ClosingMainWindow)
              else r == Err(CloseNotAllowed) && Value() == old(Value())
    {
      if phase != Running {
        return Err(CloseNotAllowed);
      }
      phase := ClosingMainWindow;
      return Ok(());
    }

    /** Also `reset_after_reopen`, which has the same body. */
    method CancelMainWindowClose()
      modifies this`phase
      ensures Value() == Reopened(old(Value()))
    {
      if phase == ClosingMainWindow {
        phase := Running;
      }
    }

    method BeginCleanup(action: Action) returns (begun: bool)
      modifies this
      ensures (Value(), begun) == CleaningBegun(old(Value()), action)
    {
      if phase == Cleaning || phase == ReadyToExit {
        return false;
      }
      phase := Cleaning;
      exitRequestId := None;
      completionAction := action;
      return true;
    }

    /** `freshId` is the UUID that is drawn if the frontend has to be asked. */
    method OnExitRequested(hasWindow: bool, action: Action, freshId: string) returns (answer: Answer)
      modifies this
      ensures (Value(), answer) == Asked(old(Value()), hasWindow, action, freshId)
    {
      match phase
      case ReadyToExit =>
        return Allow;
      case ClosingMainWindow =>
        phase := Running;
        return Prevent;
      case AwaitingFrontend =>
        return Prevent;
      case Cleaning =>
        return Prevent;
      case Running =>
        if hasWindow {
          phase := AwaitingFrontend;
          exitRequestId := Some(freshId);
          completionAction := action;
          return RequestFrontend(freshId);
        }
        phase := Cleaning;
        completionAction := action;
        return Cleanup;
    }

    method ResolveExit(id: string, decision: Decision) returns (r: Result<bool, LifecycleError>)
      modifies this
      ensures (Value(), r) == Decided(old(Value()), id, decision)
    {
      if phase != AwaitingFrontend || exitRequestId != Some(id) {
        return Err(RequestStale);
      }
      exitRequestId := None;
      if decision == Proceed {
        phase := Cleaning;
        return Ok(true);
      }
      phase := Running;
      completionAction := Exit;
      return Ok(false);
    }

    method CancelExpiredRequest(id: string)
      modifies this
      ensures Value() == Expired(old(Value()), id)
    {
      if phase == AwaitingFrontend && exitRequestId == Some(id) {
        phase := Running;
        exitRequestId := None;
        completionAction := Exit;
      }
    }

    method MarkReadyToExit() returns (action: Action)
      modifies this
      ensures Value() == Life(ReadyToExit, None, old(completionAction)) && action == old(completionAction)
    {
      phase := ReadyToExit;
      exitRequestId := None;
      return completionAction;
    }
  }

  // ---- The application around it ----

  /**
   `timers` are the pending cancellations of requests, by timeout or because the frontend could not be
   reached; `used` all ids drawn so far; `spawned` and `active` count cleanups; `done` lists what finished
   cleanups did to the application.
   */
  datatype World = World(
    life: Life, timers: multiset<string>, used: set<string>, spawned: nat, active: nat, done: seq<Action>)

  const INITIAL := World(START, multiset{}, {}, 0, 0, [])

  /** `Request` stands for an exit request of the system or a restart request. */
  datatype Event =
    | Request(id: string, hasWindow: bool, action: Action)
    | Resolve(id: string, decision: Decision)
    | Expire(id: string)
    | BeginClose
    | CancelClose
    | CloseWindow
    | CleanupDone

  /** Drawn ids are new, a timer fires only while pending, and a cleanup ends only after it was started. */
  predicate Enabled(w: World, e: Event) {
    match e
    case Request(id, _, _) => id !in w.used
    case Expire(id) => id in w.timers
    case CleanupDone => w.active > 0
    case _ => true
  }

  function Spawned(w: World, life: Life, spawns: bool): World {
    if spawns then w.(life := life, spawned := w.spawned + 1, active := w.active + 1) else w.(life := life)
  }

  function Step(w: World, e: Event): World
    requires Enabled(w, e)
  {
    match e
    case Request(id, hasWindow, action) =>
      var (life, answer) := Asked(w.life, hasWindow, action, id);
      var next := Spawned(w, life, answer == Cleanup);
      next.(used := w.used + {id}, timers := if answer.RequestFrontend? then w.timers + multiset{id} else w.timers)
    case Resolve(id, decision) =>
      var (life, r) := Decided(w.life, id, decision);
      Spawned(w, life, r == Ok(true))
    case Expire(id) =>
      w.(life := Expired(w.life, id), timers := w.timers - multiset{id})
    case BeginClose =>
      if w.life.phase == Running then w.(life := w.life.(phase := ClosingMainWindow)) else w
    case CancelClose =>
      w.(life := Reopened(w.life))
    case CloseWindow =>
      var (life, begun) := CleaningBegun(w.life, Exit);
      Spawned(w, life, begun)
    case CleanupDone =>
      w.(life := Life(ReadyToExit, None, w.life.action), active := w.active - 1, done := w.done + [w.life.action])
  }

  /** The state after a run, if every event of it can happen. */
  function Run(events: seq<Event>): Option<World> {
    if events == [] then Some(INITIAL)
    else
      var w := Run(events[..|events| - 1]);
      var e := events[|events| - 1];
      if w.None? || !Enabled(w.value, e) then None else Some(Step(w.value, e))
  }

  // ---- Safety ----

  /** What holds in every reachable state. */
  ghost predicate Safe(w: World) {
    && (w.life.requestId.Some? <==> w.life.phase == AwaitingFrontend)
    && (w.life.requestId.Some? ==> w.life.requestId.value in w.used && w.life.requestId.value in w.timers)
    && TimersSafe(w)
    && w.spawned == (if Ending(w.life) then 1 else 0)
    && w.active == (if w.life.phase == Cleaning then 1 else 0)
    && |w.done| == (if w.life.phase == ReadyToExit then 1 else 0)
    && (w.life.phase == Running || w.life.phase == ClosingMainWindow ==> w.life.action == Exit)
    && (w.life.phase == ReadyToExit ==> w.done == [w.life.action])
  }

  /** Every timer belongs to a request that was made, and no request has two. */
  ghost predicate TimersSafe(w: World) {
    forall id :: id in w.timers ==> id in w.used && w.timers[id] == 1
  }

  lemma {:induction false} StepKeepsTimers(w: World, e: Event)
    requires TimersSafe(w) && Enabled(w, e)
    ensures TimersSafe(Step(w, e))
  {
  }

  lemma {:induction false} StepKeepsSafe(w: World, e: Event)
    requires Safe(w) && Enabled(w, e)
    ensures Safe(Step(w, e))
  {
    StepKeepsTimers(w, e);
  }

  /**
   In every run cleanup is started at most once, an id is held exactly while the frontend is awaited, and
   a held request always has its one timer pending.
   */
  lemma {:induction false} RunsAreSafe(events: seq<Event>)
    requires Run(events).Some?
    ensures Safe(Run(events).value)
  {
    if events != [] {
      RunsAreSafe(events[..|events| - 1]);
      StepKeepsSafe(Run(events[..|events| - 1]).value, events[|events| - 1]);
    }
  }

  /** Ready-to-exit is absorbing and entered only from cleaning, by the end of the cleanup; cleaning leads nowhere else. */
  lemma {:induction false} EndIsFinal(w: World, e: Event)
    requires Safe(w) && Enabled(w, e)
    ensures w.life.phase == ReadyToExit ==> Step(w, e).life == w.life && Step(w, e).done == w.done
    ensures Step(w, e).life.phase == ReadyToExit && w.life.phase != ReadyToExit ==>
      w.life.phase == Cleaning && e == CleanupDone
    ensures w.life.phase == Cleaning ==>
      Ending(Step(w, e).life) && Step(w, e).life.action == w.life.action && (e == CleanupDone <==> Step(w, e).life != w.life)
  {
  }

  // ---- Stale ids ----

  /** An id that was drawn and is not held any more. */
  predicate Retired(w: World, id: string) {
    id in w.used && !Holds(w.life, id)
  }

  /** Messages about an id that is not held change nothing but the pending timers. */
  lemma {:induction false} StaleHasNoEffect(w: World, id: string, decision: Decision)
    requires Safe(w) && !Holds(w.life, id)
    ensures Step(w, Resolve(id, decision)) == w
    ensures Enabled(w, Expire(id)) ==> Step(w, Expire(id)) == w.(timers := w.timers - multiset{id})
  {
  }

  lemma {:induction false} RetiredStays(w: World, e: Event, id: string)
    requires Safe(w) && Enabled(w, e) && Retired(w, id)
    ensures Retired(Step(w, e), id)
  {
  }

  /** Once an id is retired, it stays retired for the rest of the run: it can never affect a newer request. */
  lemma {:induction false} OldIdsStayRetired(events: seq<Event>, n: nat, id: string)
    requires n <= |events| && Run(events).Some? && Run(events[..n]).Some? && Retired(Run(events[..n]).value, id)
    ensures Retired(Run(events).value, id)
    decreases |events|
  {
    if n == |events| {
      assert events[..n] == events;
    } else {
      var init := events[..|events| - 1];
      assert init[..n] == events[..n];
      OldIdsStayRetired(init, n, id);
      RunsAreSafe(init);
      RetiredStays(Run(init).value, events[|events| - 1], id);
    }
  }

  // ---- The final action ----

  /** Event `k` is the one that entered cleaning. */
  ghost predicate Entered(events: seq<Event>, k: nat) {
    && k < |events| && Run(events[..k]).Some? && Run(events[..k + 1]).Some?
    && !Ending(Run(events[..k]).value.life) && Run(events[..k + 1]).value.life.phase == Cleaning
  }

  /** Some earlier event asked the frontend under this id, for this action. */
  ghost predicate AskedFor(events: seq<Event>, id: string, action: Action) {
    exists j :: 0 <= j < |events| && events[j] == Request(id, true, action)
  }

  /** The event that entered cleaning carries the action, itself or through the request it lets proceed. */
  ghost predicate Carries(events: seq<Event>, k: nat, action: Action) {
    && Entered(events, k)
    && match events[k]
       case CloseWindow => action == Exit
       case Request(_, hasWindow, a) => !hasWindow && a == action
       case Resolve(id, decision) => decision == Proceed && AskedFor(events[..k], id, action)
       case _ => false
  }

  ghost predicate Explained(events: seq<Event>) {
    Run(events).Some? ==>
      var l := Run(events).value.life;
      && (l.phase == AwaitingFrontend ==> l.requestId.Some? && AskedFor(events, l.requestId.value, l.action))
      && (Ending(l) ==> exists k: nat :: Carries(events, k, l.action))
  }

  lemma {:induction false} CarriesLater(init: seq<Event>, events: seq<Event>, k: nat, action: Action)
    requires events != [] && init == events[..|events| - 1] && Carries(init, k, action)
    ensures Carries(events, k, action)
  {
    assert init[..k] == events[..k] && init[..k + 1] == events[..k + 1];
  }

  lemma {:induction false} AskedLater(init: seq<Event>, events: seq<Event>, id: string, action: Action)
    requires events != [] && init == events[..|events| - 1] && AskedFor(init, id, action)
    ensures AskedFor(events, id, action)
  {
    var j :| 0 <= j < |init| && init[j] == Request(id, true, action);
    assert events[j] == init[j];
  }

  /** The ways into cleaning, and the action they leave behind. */
  lemma {:induction false} WaysIntoCleaning(w: World, e: Event)
    requires Safe(w) && Enabled(w, e) && !Ending(w.life) && Ending(Step(w, e).life)
    ensures var l := Step(w, e).life;
      && l.phase == Cleaning
      && match e
         case CloseWindow => l.action == Exit
         case Request(_, hasWindow, action) => !hasWindow && action == l.action
         case Resolve(id, decision) => decision == Proceed && Holds(w.life, id) && l.action == w.life.action
         case _ => false
  {
  }

  lemma {:induction false} WaysIntoAwaiting(w: World, e: Event)
    requires Safe(w) && Enabled(w, e) && Step(w, e).life.phase == AwaitingFrontend
    ensures Step(w, e).life.requestId.Some?
    ensures w.life.phase == AwaitingFrontend ==> Step(w, e).life == w.life
    ensures w.life.phase != AwaitingFrontend ==>
      e == Request(Step(w, e).life.requestId.value, true, Step(w, e).life.action)
  {
  }

  lemma {:induction false} EntersNow(init: seq<Event>, events: seq<Event>, w: World, e: Event)
    requires events == init + [e] && Run(init) == Some(w) && Enabled(w, e) && Run(events) == Some(Step(w, e))
    requires Safe(w) && !Ending(w.life) && Ending(Step(w, e).life)
    requires w.life.phase == AwaitingFrontend ==> AskedFor(init, w.life.requestId.value, w.life.action)
    ensures Carries(events, |init|, Step(w, e).life.action)
  {
    WaysIntoCleaning(w, e);
    assert events[..|init|] == init && events[..|init| + 1] == events;
  }

  lemma {:induction false} ExplainedStep(init: seq<Event>, events: seq<Event>, w: World, e: Event)
    requires events == init + [e] && Run(init) == Some(w) && Enabled(w, e) && Run(events) == Some(Step(w, e))
    requires Safe(w) && Explained(init)
    ensures Explained(events)
  {
    var l := Step(w, e).life;
    assert init == events[..|events| - 1];
    if Ending(l) {
      if Ending(w.life) {
        EndIsFinal(w, e);
        var k: nat :| Carries(init, k, w.life.action);
        CarriesLater(init, events, k, w.life.action);
      } else {
        EntersNow(init, events, w, e);
      }
    } else if l.phase == AwaitingFrontend {
      WaysIntoAwaiting(w, e);
      if w.life.phase == AwaitingFrontend {
        AskedLater(init, events, l.requestId.value, l.action);
      } else {
        assert events[|init|] == e;
      }
    }
  }

  /** The last event of a run and the state before it. */
  lemma {:induction false} LastEvent(events: seq<Event>) returns (init: seq<Event>, w: World, e: Event)
    requires events != [] && Run(events).Some?
    ensures events == init + [e] && Run(init) == Some(w) && Enabled(w, e) && Run(events) == Some(Step(w, e))
  {
    init, e := events[..|events| - 1], events[|events| - 1];
    w := Run(init).value;
  }

  lemma {:induction false} AllExplained(events: seq<Event>)
    ensures Explained(events)
    decreases |events|
  {
    if events != [] && Run(events).Some? {
      var init, w, e := LastEvent(events);
      AllExplained(init);
      RunsAreSafe(init);
      ExplainedStep(init, events, w, e);
    }
  }

  /**
   What the application finally does is what the event that entered cleaning asked for: closing the window
   exits, a request without a window does its own action, and a decision to proceed does the action of the
   request it answers.
   */
  lemma {:induction false} FinalActionIsAsked(events: seq<Event>)
    requires Run(events).Some? && Run(events).value.life.phase == ReadyToExit
    ensures exists k: nat, action ::
      Carries(events, k, action) && Run(events).value.done == [action]
  {
    RunsAreSafe(events);
    AllExplained(events);
    var k: nat :| Carries(events, k, Run(events).value.life.action);
  }

  lemma {:induction false} EnteredBefore(events: seq<Event>, j: nat, k: nat)
    requires Entered(events, j) && j < k < |events| && Run(events[..k]).Some?
    ensures Ending(Run(events[..k]).value.life)
  {
    assert events[..k][..j + 1] == events[..j + 1];
    EndingStays(events[..k], j + 1);
  }

  /** Cleaning is entered at most once in a run. */
  lemma {:induction false} EnteredOnce(events: seq<Event>, j: nat, k: nat)
    requires Entered(events, j) && Entered(events, k)
    ensures j == k
  {
    if j < k {
      EnteredBefore(events, j, k);
    } else if k < j {
      EnteredBefore(events, k, j);
    }
  }

  lemma {:induction false} EndingStays(events: seq<Event>, n: nat)
    requires n <= |events| && Run(events).Some? && Run(events[..n]).Some? && Ending(Run(events[..n]).value.life)
    ensures Ending(Run(events).value.life)
    decreases |events|
  {
    if n == |events| {
      assert events[..n] == events;
    } else {
      var init := events[..|events| - 1];
      assert init[..n] == events[..n];
      EndingStays(init, n);
      RunsAreSafe(init);
      EndIsFinal(Run(init).value, events[|events| - 1]);
    }
  }
}
