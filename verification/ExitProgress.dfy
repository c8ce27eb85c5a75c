/**
 What the exit coordinator does in time: which answer every request gets, what each decision leads to, and
 that whatever was let proceed ends with the action that was asked for.
 */
module ExitProgress {
  import opened Wrappers
  import opened ExitCoordinator

  lemma {:induction false} RunOne(events: seq<Event>, e: Event)
    ensures Run(events + [e]) ==
      if Run(events).None? || !Enabled(Run(events).value, e) then None else Some(ExitCoordinator.Step(Run(events).value, e))
  {
    assert (events + [e])[..|events|] == events;
  }

  // ---- Answers ----

  /** The application may exit at once exactly if its cleanup has been done. */
  lemma {:induction false} AllowedIffCleaned(events: seq<Event>, hasWindow: bool, action: Action, id: string)
    requires Run(events).Some?
    ensures var w := Run(events).value; Asked(w.life, hasWindow, action, id).1 == Allow <==> w.done != []
  {
    RunsAreSafe(events);
  }

  /**
   A request while running asks the frontend under its own id if there is a window, and starts the one
   cleanup for its action if there is none. A request while the window closes only undoes the closing;
   at every other time the application goes on as it is.
   */
  lemma {:induction false} RequestAnswered(events: seq<Event>, id: string, hasWindow: bool, action: Action)
    requires Run(events).Some? && id !in Run(events).value.used
    ensures Run(events + [Request(id, hasWindow, action)]).Some?
    ensures var w, next := Run(events).value, Run(events + [Request(id, hasWindow, action)]).value;
      var answer := Asked(w.life, hasWindow, action, id).1;
      match w.life.phase
      case Running =>
        if hasWindow then
          && answer == RequestFrontend(id) && next.life == Life(AwaitingFrontend, Some(id), action)
          && next.timers == w.timers + multiset{id} && next.spawned == 0
        else answer == Cleanup && next.life == Life(Cleaning, None, action) && next.spawned == 1 && next.active == 1
      case ClosingMainWindow => answer == Prevent && next.life == START && next.spawned == 0
      case AwaitingFrontend => answer == Prevent && next.life == w.life && next.spawned == 0
      case Cleaning => answer == Prevent && next.life == w.life && next.spawned == 1
      case ReadyToExit => answer == Allow && next.life == w.life && next.spawned == 1
  {
    RunsAreSafe(events);
    RunOne(events, Request(id, hasWindow, action));
  }

  /** A decision counts exactly for the held request; then it says whether cleanup has to be started. */
  lemma {:induction false} DecisionAnswered(l: Life, id: string, decision: Decision)
    ensures Decided(l, id, decision).1 ==
      if l.phase == AwaitingFrontend && l.requestId == Some(id) then Ok(decision == Proceed) else Err(RequestStale)
  {
  }

  // ---- The held request ----

  lemma {:induction false} UsedGrows(events: seq<Event>, n: nat)
    requires n <= |events| && Run(events).Some?
    ensures Run(events[..n]).Some? && Run(events[..n]).value.used <= Run(events).value.used
    decreases |events|
  {
    if n == |events| {
      assert events[..n] == events;
    } else {
      var init, w, e := LastEvent(events);
      assert init[..n] == events[..n];
      UsedGrows(init, n);
    }
  }

  lemma {:induction false} PrefixGrows(events: seq<Event>, i: nat)
    requires i < |events|
    ensures events[..i + 1] == events[..i] + [events[i]]
  {
  }

  /** A request uses up an id that was unused before. */
  lemma {:induction false} RequestUses(events: seq<Event>, i: nat)
    requires i < |events| && Run(events).Some? && events[i].Request?
    ensures Run(events[..i]).Some? && events[i].id !in Run(events[..i]).value.used
    ensures Run(events[..i + 1]).Some? && events[i].id in Run(events[..i + 1]).value.used
  {
    UsedGrows(events, i);
    UsedGrows(events, i + 1);
    PrefixGrows(events, i);
    RunOne(events[..i], events[i]);
  }

  /** No two requests of a run have the same id, so an id has one action. */
  lemma {:induction false} RequestIdsDiffer(events: seq<Event>, i: nat, j: nat)
    requires i < j < |events| && Run(events).Some? && events[i].Request? && events[j].Request?
    ensures events[i].id != events[j].id
  {
    RequestUses(events, i);
    RequestUses(events, j);
    UsedGrows(events[..j], i + 1);
    assert events[..j][..i + 1] == events[..i + 1];
  }

  /** The held request was made in this run, with a window, for the action that is recorded. */
  lemma {:induction false} HeldWasAsked(events: seq<Event>, id: string)
    requires Run(events).Some? && Holds(Run(events).value.life, id)
    ensures Request(id, true, Run(events).value.life.action) in events
  {
    AllExplained(events);
  }

  /** Proceeding starts the one cleanup, for the action of the held request. */
  lemma {:induction false} ProceedingCleans(events: seq<Event>, id: string, action: Action)
    requires Run(events).Some? && Holds(Run(events).value.life, id) && Request(id, true, action) in events
    ensures Run(events).value.spawned == 0
    ensures var next := Run(events + [Resolve(id, Proceed)]);
      next.Some? && next.value.life == Life(Cleaning, None, action) && next.value.spawned == 1 && next.value.active == 1
  {
    RunsAreSafe(events);
    HeldWasAsked(events, id);
    var i: nat :| i < |events| && events[i] == Request(id, true, action);
    var j: nat :| j < |events| && events[j] == Request(id, true, Run(events).value.life.action);
    if i < j {
      RequestIdsDiffer(events, i, j);
    } else if j < i {
      RequestIdsDiffer(events, j, i);
    }
    RunOne(events, Resolve(id, Proceed));
  }

  /** Cancelling the held request, or letting it expire, leads back to the start, with no cleanup. */
  lemma {:induction false} CancellingRestores(events: seq<Event>, id: string)
    requires Run(events).Some? && Holds(Run(events).value.life, id)
    ensures var cancelled := Run(events + [Resolve(id, Cancel)]);
      cancelled.Some? && cancelled.value == Run(events).value.(life := Life(Running, None, Exit))
    ensures var expired := Run(events + [Expire(id)]);
      && expired.Some?
      && expired.value == Run(events).value.(life := Life(Running, None, Exit), timers := Run(events).value.timers - multiset{id})
    ensures Run(events).value.spawned == 0
  {
    RunsAreSafe(events);
    RunOne(events, Resolve(id, Cancel));
    RunOne(events, Expire(id));
  }

  // ---- The window ----

  /** Closing the window alone is possible from running only, and can be taken back. */
  lemma {:induction false} ClosingTakenBack(events: seq<Event>)
    requires Run(events).Some?
    ensures var w := Run(events).value;
      && Run(events + [BeginClose]) ==
         Some(if w.life.phase == Running then w.(life := Life(ClosingMainWindow, None, Exit)) else w)
      && Run(events + [CancelClose]) ==
         Some(if w.life.phase == ClosingMainWindow then w.(life := Life(Running, None, Exit)) else w)
  {
    RunsAreSafe(events);
    RunOne(events, BeginClose);
    RunOne(events, CancelClose);
  }

  /** Closing the window for good starts the one cleanup, to exit, unless cleanup was started before. */
  lemma {:induction false} ClosingWindowCleans(events: seq<Event>)
    requires Run(events).Some?
    ensures var w := Run(events).value;
      Run(events + [CloseWindow]) ==
      Some(if w.spawned == 0 then w.(life := Life(Cleaning, None, Exit), spawned := 1, active := 1) else w)
  {
    RunsAreSafe(events);
    WindowClosed(Run(events).value);
    RunOne(events, CloseWindow);
  }

  lemma {:induction false} WindowClosed(w: World)
    requires Safe(w)
    ensures ExitCoordinator.Step(w, CloseWindow) ==
      if w.spawned == 0 then w.(life := Life(Cleaning, None, Exit), spawned := 1, active := 1) else w
  {
  }

  // ---- The end ----

  lemma {:induction false} AppendedInit(events: seq<Event>, more: seq<Event>)
    requires more != []
    ensures (events + more)[..|events + more| - 1] == events + more[..|more| - 1]
    ensures (events + more)[|events + more| - 1] == more[|more| - 1]
  {
  }

  /** Until cleanup ends, nothing that happens takes the application out of cleaning. */
  lemma {:induction false} CleaningLasts(events: seq<Event>, more: seq<Event>)
    requires Run(events).Some? && Run(events).value.life.phase == Cleaning
    requires Run(events + more).Some? && CleanupDone !in more
    ensures Run(events + more).value.life == Run(events).value.life
    decreases |more|
  {
    if more == [] {
      assert events + more == events;
    } else {
      AppendedInit(events, more);
      var init, w, e := LastEvent(events + more);
      CleaningLasts(events, more[..|more| - 1]);
      RunsAreSafe(init);
      EndIsFinal(w, e);
    }
  }

  /**
   Once cleaning has begun, whatever else happens, cleanup can end, and when it does the application is ready
   to exit and has done the one action for which cleaning began.
   */
  lemma {:induction false} CleaningEnds(events: seq<Event>, more: seq<Event>)
    requires Run(events).Some? && Run(events).value.life.phase == Cleaning
    requires Run(events + more).Some? && CleanupDone !in more
    ensures var end := Run(events + more + [CleanupDone]);
      && end.Some? && end.value.life == Life(ReadyToExit, None, Run(events).value.life.action)
      && end.value.done == [Run(events).value.life.action] && end.value.active == 0
  {
    CleaningLasts(events, more);
    RunsAreSafe(events + more);
    RunOne(events + more, CleanupDone);
  }

  /** A request that is let proceed ends, whatever else happens, with the action it asked for. */
  lemma {:induction false} ProceedingEnds(events: seq<Event>, id: string, action: Action, more: seq<Event>)
    requires Run(events).Some? && Holds(Run(events).value.life, id) && Request(id, true, action) in events
    requires CleanupDone !in more && Run(events + [Resolve(id, Proceed)] + more).Some?
    ensures var end := Run(events + [Resolve(id, Proceed)] + more + [CleanupDone]);
      end.Some? && end.value.life.phase == ReadyToExit && end.value.done == [action]
  {
    ProceedingCleans(events, id, action);
    CleaningEnds(events + [Resolve(id, Proceed)], more);
  }
}
