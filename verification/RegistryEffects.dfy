/**
 What each registry command does to the registry and when it is refused, said about the lists and maps
 themselves, and what a run of commands leaves as the last workspace and as a run mode.
 */
module RegistryEffects {
  import opened Wrappers
  import opened Registry
  import opened RegistryTheorems

  ghost predicate PathKnown(ws: seq<Workspace>, path: string, paths: Paths) {
    exists w :: w in ws && paths.normal(w.path) == paths.normal(path)
  }

  /** `x` stands before `y`. */
  ghost predicate Precedes<T(!new)>(list: seq<T>, x: T, y: T) {
    exists a, b :: 0 <= a < b < |list| && list[a] == x && list[b] == y
  }

  /** What stands in the first list stands in the second, in the same order. */
  ghost predicate InOrder<T(!new)>(after: seq<T>, before: seq<T>) {
    && (forall x :: x in after ==> x in before)
    && (forall i, j :: 0 <= i < j < |after| ==> Precedes(before, after[i], after[j]))
  }

  lemma {:induction false} PrecedesLater<T(!new)>(first: T, list: seq<T>, x: T, y: T)
    requires Precedes(list, x, y)
    ensures Precedes([first] + list, x, y)
  {
    var a, b :| 0 <= a < b < |list| && list[a] == x && list[b] == y;
    assert ([first] + list)[a + 1] == x && ([first] + list)[b + 1] == y;
  }

  lemma {:induction false} FirstPrecedes<T(!new)>(first: T, list: seq<T>, y: T)
    requires y in list
    ensures Precedes([first] + list, first, y)
  {
    var b :| 0 <= b < |list| && list[b] == y;
    assert ([first] + list)[0] == first && ([first] + list)[b + 1] == y;
  }

  lemma {:induction false} InOrderSkip<T(!new)>(x: T, after: seq<T>, before: seq<T>)
    requires InOrder(after, before)
    ensures InOrder(after, [x] + before)
  {
    forall i, j | 0 <= i < j < |after| ensures Precedes([x] + before, after[i], after[j]) {
      PrecedesLater(x, before, after[i], after[j]);
    }
  }

  lemma {:induction false} InOrderKeep<T(!new)>(x: T, after: seq<T>, before: seq<T>)
    requires InOrder(after, before)
    ensures InOrder([x] + after, [x] + before)
  {
    var more := [x] + after;
    forall i, j | 0 <= i < j < |more| ensures Precedes([x] + before, more[i], more[j]) {
      if i == 0 {
        FirstPrecedes(x, before, after[j - 1]);
      } else {
        PrecedesLater(x, before, after[i - 1], after[j - 1]);
      }
    }
  }

  lemma {:induction false} RetainedPins(pins: seq<Pin>, d: Drop)
    ensures InOrder(RetainPins(pins, d), pins)
  {
    if pins != [] {
      RetainedPins(pins[1..], d);
      InOrderSkip(pins[0], RetainPins(pins[1..], d), pins[1..]);
      InOrderKeep(pins[0], RetainPins(pins[1..], d), pins[1..]);
      assert [pins[0]] + pins[1..] == pins;
    }
  }

  lemma {:induction false} RetainedWorkspaces(ws: seq<Workspace>, dropped: string)
    ensures InOrder(RetainWorkspaces(ws, dropped), ws)
    ensures forall w :: w in RetainWorkspaces(ws, dropped) <==> w in ws && w.projectId != dropped
  {
    if ws != [] {
      RetainedWorkspaces(ws[1..], dropped);
      InOrderSkip(ws[0], RetainWorkspaces(ws[1..], dropped), ws[1..]);
      InOrderKeep(ws[0], RetainWorkspaces(ws[1..], dropped), ws[1..]);
      assert [ws[0]] + ws[1..] == ws;
    }
  }

  // ---- Refusals ----

  /** The workspace that a command names by its id. */
  function Named<R>(c: Command<R>): Option<string> {
    match c
    case PinTask(projectId, _) => Some(projectId)
    case UnpinTask(projectId, _) => Some(projectId)
    case Remove(projectId) => Some(projectId)
    case SetLast(projectId) => Some(projectId)
    case SetRunMode(projectId, _) => Some(projectId)
    case _ => None
  }

  /** A command that names a workspace is refused exactly if the workspace is not registered. */
  lemma {:induction false} NamedRefusedIff<R>(s: State<R>, c: Command<R>, paths: Paths)
    requires Named(c).Some?
    ensures Apply(s, c, paths).error ==
      if Registered(s.workspaces, Named(c).value) then None else Some(NotFound(Named(c).value))
  {
    FindIff(s.workspaces, Named(c).value);
  }

  /** The workspace of pin `k` is the first unknown one. */
  ghost predicate FirstUnknownPin(ws: seq<Workspace>, ordered: seq<Pin>, k: nat) {
    && k < |ordered| && !Registered(ws, ordered[k].projectId)
    && forall j :: 0 <= j < k ==> Registered(ws, ordered[j].projectId)
  }

  /** A reorder is refused exactly if some pin's workspace is unknown, and reports the first such pin. */
  lemma {:induction false} ReorderRefusedIff<R>(s: State<R>, ordered: seq<Pin>, paths: Paths)
    ensures var error := Apply(s, Reorder(ordered), paths).error;
      && (error.None? <==> forall p :: p in ordered ==> Registered(s.workspaces, p.projectId))
      && forall k: nat :: FirstUnknownPin(s.workspaces, ordered, k) ==> error == Some(NotFound(ordered[k].projectId))
  {
    forall id: string ensures Find(s.workspaces, id).Some? <==> Registered(s.workspaces, id) {
      FindIff(s.workspaces, id);
    }
    forall k: nat | FirstUnknownPin(s.workspaces, ordered, k)
      ensures FirstUnknown(s.workspaces, ordered) == Some(ordered[k].projectId)
    {
      FirstUnknownIs(s.workspaces, ordered, k);
    }
  }

  lemma {:induction false} FirstUnknownIs(ws: seq<Workspace>, ordered: seq<Pin>, k: nat)
    requires FirstUnknownPin(ws, ordered, k)
    ensures FirstUnknown(ws, ordered) == Some(ordered[k].projectId)
  {
    FindIff(ws, ordered[0].projectId);
    if k > 0 {
      assert forall j :: 0 <= j < |ordered[1..]| ==> ordered[1..][j] == ordered[j + 1];
      FirstUnknownIs(ws, ordered[1..], k - 1);
    }
  }

  /** Adding is refused for a registered path, then for a registered id; synchronizing only for the latter. */
  lemma {:induction false} PathRefusedIff<R>(s: State<R>, path: string, now: string, paths: Paths)
    ensures var id := paths.idOf(paths.normal(path));
      && Apply(s, Add(path, now), paths).error ==
         (if PathKnown(s.workspaces, path, paths) then Some(AlreadyExists(paths.fileName(path).GetOr(path)))
          else if Registered(s.workspaces, id) then Some(IdCollision(id)) else None)
      && Apply(s, Sync(path, now), paths).error ==
         (if !PathKnown(s.workspaces, path, paths) && Registered(s.workspaces, id) then Some(IdCollision(id)) else None)
  {
    FindIff(s.workspaces, paths.idOf(paths.normal(path)));
  }

  // ---- Pins ----

  /** One more than the greatest number, 1 if all are 0, and 0 once no greater number is left. */
  ghost predicate NextNumber(pins: seq<Pin>, n: nat) {
    if exists p :: p in pins && p.order >= USIZE_MAX then n == 0
    else
      && n > 0 && (forall p :: p in pins ==> p.order < n)
      && (n > 1 ==> exists p :: p in pins && p.order == n - 1)
  }

  /** A new pin goes to the end, with the next number. */
  lemma {:induction false} PinAppends<R>(s: State<R>, projectId: string, taskId: string, paths: Paths)
    requires Registered(s.workspaces, projectId)
    ensures var step := Apply(s, PinTask(projectId, taskId), paths);
      if exists p :: p in s.pins && p.projectId == projectId && p.taskId == taskId then step.state == s && !step.dirty
      else
        && step.dirty
        && (exists n: nat :: step.state == s.(pins := s.pins + [Pin(projectId, taskId, n)]) && NextNumber(s.pins, n))
  {
    FindIff(s.workspaces, projectId);
    if MaxOrder(s.pins) > 0 {
      MaxOrderTaken(s.pins);
    }
    assert NextNumber(s.pins, NextOrder(s.pins));
    assert Apply(s, PinTask(projectId, taskId), paths).state.pins ==
      if Pinned(s.pins, projectId, taskId) then s.pins else s.pins + [Pin(projectId, taskId, NextOrder(s.pins))];
  }

  /** Unpinning takes away the pins of that task and nothing else; it asks for a save exactly if there was one. */
  lemma {:induction false} UnpinDrops<R>(s: State<R>, c: Command<R>, projectId: string, taskId: string, paths: Paths)
    requires c == DeleteTask(projectId, taskId) || (c == UnpinTask(projectId, taskId) && Registered(s.workspaces, projectId))
    ensures var step := Apply(s, c, paths);
      && step.error.None? && step.state == s.(pins := step.state.pins)
      && (forall p :: p in step.state.pins <==> p in s.pins && !(p.projectId == projectId && p.taskId == taskId))
      && InOrder(step.state.pins, s.pins)
      && (step.dirty <==> exists p :: p in s.pins && p.projectId == projectId && p.taskId == taskId)
  {
    var d := DropPin(projectId, taskId);
    FindIff(s.workspaces, projectId);
    RetainMembers(s.pins, d);
    RetainLength(s.pins, d);
    RetainedPins(s.pins, d);
    assert Apply(s, c, paths) == Dropping(s, d);
    if |RetainPins(s.pins, d)| != |s.pins| && forall p :: p in s.pins ==> !Drops(d, p) {
      RetainNone(s.pins, d);
    }
  }

  /** An accepted reorder stores the submitted pins as they are, numbered by their place. */
  lemma {:induction false} ReorderStores<R>(s: State<R>, ordered: seq<Pin>, paths: Paths)
    requires Apply(s, Reorder(ordered), paths).error.None?
    ensures var step := Apply(s, Reorder(ordered), paths);
      && step.dirty && step.state == s.(pins := step.state.pins) && |step.state.pins| == |ordered|
      && forall k :: 0 <= k < |ordered| ==> step.state.pins[k] == Pin(ordered[k].projectId, ordered[k].taskId, k)
  {
  }

  // ---- Workspaces ----

  /** An accepted path goes to the end of the list under its own id, and is the last used. */
  lemma {:induction false} AddAppends<R>(s: State<R>, c: Command<R>, path: string, now: string, paths: Paths)
    requires c == Add(path, now) || (c == Sync(path, now) && !PathKnown(s.workspaces, path, paths))
    requires Apply(s, c, paths).error.None?
    ensures var id := paths.idOf(paths.normal(path));
      && Apply(s, c, paths).dirty
      && Apply(s, c, paths).state == s.(
           workspaces := s.workspaces + [Workspace(id, path, paths.fileName(path).GetOr(path), now)], last := Some(id))
  {
  }

  /** Workspace `k` is the first one at the path. */
  ghost predicate FirstWith(ws: seq<Workspace>, path: string, k: nat, paths: Paths) {
    && k < |ws| && paths.normal(ws[k].path) == paths.normal(path)
    && forall j :: 0 <= j < k ==> paths.normal(ws[j].path) != paths.normal(path)
  }

  /** Synchronizing a registered path only makes its first workspace the last used. */
  lemma {:induction false} SyncAdopts<R>(s: State<R>, path: string, now: string, paths: Paths)
    requires PathKnown(s.workspaces, path, paths)
    ensures var step := Apply(s, Sync(path, now), paths);
      && step.dirty
      && (exists k: nat :: FirstWith(s.workspaces, path, k, paths) && step.state == s.(last := Some(s.workspaces[k].projectId)))
  {
    FindPathFirst(s.workspaces, path, paths);
  }

  lemma {:induction false} FindPathFirst(ws: seq<Workspace>, path: string, paths: Paths)
    requires FindPath(ws, paths.normal(path), paths).Some?
    ensures exists k: nat :: FirstWith(ws, path, k, paths) && FindPath(ws, paths.normal(path), paths) == Some(ws[k])
  {
    if paths.normal(ws[0].path) == paths.normal(path) {
      assert FirstWith(ws, path, 0, paths);
    } else {
      FindPathFirst(ws[1..], path, paths);
      var k: nat :| FirstWith(ws[1..], path, k, paths) && FindPath(ws, paths.normal(path), paths) == Some(ws[1..][k]);
      assert forall j :: 0 < j <= k + 1 ==> ws[j] == ws[1..][j - 1];
      assert FirstWith(ws, path, k + 1, paths);
    }
  }

  /** Removal keeps the rest in order; the last used is repaired to the first that remains, only if it was removed. */
  lemma {:induction false} RemoveRepairs<R>(s: State<R>, id: string, paths: Paths)
    requires Registered(s.workspaces, id)
    ensures var after := Apply(s, Remove(id), paths).state;
      && Apply(s, Remove(id), paths).dirty && after.version == s.version
      && (forall w :: w in after.workspaces <==> w in s.workspaces && w.projectId != id)
      && (forall p :: p in after.pins <==> p in s.pins && p.projectId != id)
      && InOrder(after.workspaces, s.workspaces) && InOrder(after.pins, s.pins)
      && after.runModes == s.runModes - {id}
      && after.last == (if s.last != Some(id) then s.last
                        else if after.workspaces == [] then None else Some(after.workspaces[0].projectId))
  {
    FindIff(s.workspaces, id);
    RetainedWorkspaces(s.workspaces, id);
    RetainMembers(s.pins, DropProject(id));
    RetainedPins(s.pins, DropProject(id));
  }

  // ---- Single values ----

  /** The workspace that is named becomes the last used; nothing else changes. */
  lemma {:induction false} SetLastSets<R>(s: State<R>, id: string, paths: Paths)
    requires Registered(s.workspaces, id)
    ensures var step := Apply(s, SetLast(id), paths);
      && step.dirty && step.state.last == Some(id) && step.state.version == s.version
      && step.state.workspaces == s.workspaces && step.state.pins == s.pins && step.state.runModes == s.runModes
  {
    FindIff(s.workspaces, id);
  }

  /** The mode that is given is stored under the id that is named; other ids keep theirs. */
  lemma {:induction false} SetRunModeSets<R>(s: State<R>, id: string, mode: R, paths: Paths)
    requires Registered(s.workspaces, id)
    ensures var step := Apply(s, SetRunMode(id, mode), paths);
      && step.dirty && step.state == s.(runModes := step.state.runModes)
      && id in step.state.runModes && step.state.runModes[id] == mode
      && (forall other :: other != id ==>
            (other in step.state.runModes <==> other in s.runModes) &&
            (other in s.runModes ==> step.state.runModes[other] == s.runModes[other]))
  {
    FindIff(s.workspaces, id);
  }

  // ---- Over runs ----

  /** The commands that can choose the last workspace. */
  predicate Chooses<R>(c: Command<R>) {
    c.SetLast? || c.Add? || c.Sync?
  }

  /** No command of the run is accepted that chooses a workspace or removes this one. */
  ghost predicate LeavesLast<R>(s: State<R>, commands: seq<Command<R>>, id: string, paths: Paths)
    decreases |commands|
  {
    commands != [] ==>
      && (Chooses(commands[0]) || commands[0] == Remove(id) ==> Apply(s, commands[0], paths).error.Some?)
      && LeavesLast(Apply(s, commands[0], paths).state, commands[1..], id, paths)
  }

  lemma {:induction false} LastStays<R>(s: State<R>, commands: seq<Command<R>>, id: string, paths: Paths)
    requires s.last == Some(id) && LeavesLast(s, commands, id, paths)
    ensures Run(s, commands, paths).last == Some(id)
    decreases |commands|
  {
    if commands != [] {
      LastStays(Apply(s, commands[0], paths).state, commands[1..], id, paths);
    }
  }

  /** The last used workspace is the one of the latest accepted choice, as long as it is not removed. */
  lemma {:induction false} LatestChoiceIsLast<R>(s: State<R>, c: Command<R>, rest: seq<Command<R>>, paths: Paths)
    requires Chooses(c) && Apply(s, c, paths).error.None?
    requires Apply(s, c, paths).state.last.Some?
    requires LeavesLast(Apply(s, c, paths).state, rest, Apply(s, c, paths).state.last.value, paths)
    ensures var last := Run(s, [c] + rest, paths).last;
      if c.SetLast? then last == Some(c.projectId)
      else exists w :: w in Apply(s, c, paths).state.workspaces && last == Some(w.projectId) &&
             paths.normal(w.path) == paths.normal(c.path)
  {
    var after := Apply(s, c, paths).state;
    assert ([c] + rest)[1..] == rest;
    LastStays(after, rest, after.last.value, paths);
    match c
    case SetLast(id) =>
      NamedRefusedIff(s, c, paths);
      SetLastSets(s, id, paths);
    case Add(path, now) =>
      AddAppends(s, c, path, now, paths);
      assert after.workspaces[|s.workspaces|] in after.workspaces;
    case Sync(path, now) =>
      if PathKnown(s.workspaces, path, paths) {
        SyncAdopts(s, path, now, paths);
      } else {
        AddAppends(s, c, path, now, paths);
        assert after.workspaces[|s.workspaces|] in after.workspaces;
      }
  }

  /** No command of the run replaces the mode of the workspace or removes it. */
  ghost predicate LeavesMode<R>(s: State<R>, commands: seq<Command<R>>, id: string, paths: Paths)
    decreases |commands|
  {
    commands != [] ==>
      && ((commands[0].SetRunMode? && commands[0].projectId == id) || commands[0] == Remove(id) ==>
            Apply(s, commands[0], paths).error.Some?)
      && LeavesMode(Apply(s, commands[0], paths).state, commands[1..], id, paths)
  }

  lemma {:induction false} ModeStays<R>(s: State<R>, commands: seq<Command<R>>, id: string, mode: R, paths: Paths)
    requires id in s.runModes && s.runModes[id] == mode && LeavesMode(s, commands, id, paths)
    ensures var modes := Run(s, commands, paths).runModes; id in modes && modes[id] == mode
    decreases |commands|
  {
    if commands != [] {
      ModeStays(Apply(s, commands[0], paths).state, commands[1..], id, mode, paths);
    }
  }

  /** The run mode of a workspace is the one of the latest accepted save, as long as it is not removed. */
  lemma {:induction false} LatestModeStays<R>(
    s: State<R>, id: string, mode: R, rest: seq<Command<R>>, paths: Paths)
    requires Registered(s.workspaces, id)
    requires LeavesMode(Apply(s, SetRunMode(id, mode), paths).state, rest, id, paths)
    ensures var modes := Run(s, [SetRunMode(id, mode)] + rest, paths).runModes; id in modes && modes[id] == mode
  {
    assert ([SetRunMode(id, mode)] + rest)[1..] == rest;
    SetRunModeSets(s, id, mode, paths);
    ModeStays(Apply(s, SetRunMode(id, mode), paths).state, rest, id, mode, paths);
  }
}
