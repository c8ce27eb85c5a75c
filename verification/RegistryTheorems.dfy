/**
 What every run of registry commands keeps, and what the commands undo.
 */
module RegistryTheorems {
  import opened Wrappers
  import opened Registry

  // ---- Soundness ----

  ghost predicate UniqueIds(ws: seq<Workspace>) {
    forall i, j :: 0 <= i < j < |ws| ==> ws[i].projectId != ws[j].projectId
  }

  ghost predicate UniquePaths(ws: seq<Workspace>, paths: Paths) {
    forall i, j :: 0 <= i < j < |ws| ==> paths.normal(ws[i].path) != paths.normal(ws[j].path)
  }

  ghost predicate Increasing(pins: seq<Pin>) {
    forall i, j :: 0 <= i < j < |pins| ==> pins[i].order < pins[j].order
  }

  ghost predicate PinsRegistered(pins: seq<Pin>, ws: seq<Workspace>) {
    forall p :: p in pins ==> Registered(ws, p.projectId)
  }

  /**
   Project ids and normalized paths are unique, every reference names a registered workspace, a last
   workspace is recorded exactly if there is one, and pin numbers increase along the list.
   */
  ghost predicate Sound<R>(s: State<R>, paths: Paths) {
    && UniqueIds(s.workspaces) && UniquePaths(s.workspaces, paths)
    && PinsRegistered(s.pins, s.workspaces) && Increasing(s.pins)
    && (forall id :: id in s.runModes ==> Registered(s.workspaces, id))
    && (s.last.Some? ==> Registered(s.workspaces, s.last.value))
    && (s.last.Some? <==> s.workspaces != [])
  }

  lemma {:induction false} FindIff(ws: seq<Workspace>, id: string)
    ensures Find(ws, id).Some? <==> Registered(ws, id)
  {
  }

  lemma {:induction false} RetainMembers(pins: seq<Pin>, d: Drop)
    ensures forall p :: p in RetainPins(pins, d) <==> p in pins && !Drops(d, p)
  {
    if pins != [] {
      RetainMembers(pins[1..], d);
      assert pins == [pins[0]] + pins[1..];
    }
  }

  lemma {:induction false} RetainLength(pins: seq<Pin>, d: Drop)
    ensures |RetainPins(pins, d)| == |pins| ==> RetainPins(pins, d) == pins
  {
    if pins != [] {
      RetainLength(pins[1..], d);
    }
  }

  lemma {:induction false} RetainIncreasing(pins: seq<Pin>, d: Drop)
    requires Increasing(pins)
    ensures Increasing(RetainPins(pins, d))
  {
    if pins != [] {
      RetainMembers(pins[1..], d);
      RetainIncreasing(pins[1..], d);
      assert [pins[0]] + pins[1..] == pins;
      ConsIncreasing(pins[0], pins[1..], RetainPins(pins[1..], d));
    }
  }

  lemma {:induction false} ConsIncreasing(pin: Pin, pins: seq<Pin>, rest: seq<Pin>)
    requires Increasing([pin] + pins) && Increasing(rest) && forall p :: p in rest ==> p in pins
    ensures Increasing([pin] + rest)
  {
    forall j | 0 <= j < |rest| ensures pin.order < rest[j].order {
      assert rest[j] in pins;
      var k :| 0 <= k < |pins| && pins[k] == rest[j];
      assert ([pin] + pins)[0] == pin && ([pin] + pins)[k + 1] == rest[j];
    }
  }

  lemma {:induction false} RetainPinsFacts(pins: seq<Pin>, d: Drop)
    ensures forall p :: p in RetainPins(pins, d) <==> p in pins && !Drops(d, p)
    ensures |RetainPins(pins, d)| == |pins| ==> RetainPins(pins, d) == pins
    ensures Increasing(pins) ==> Increasing(RetainPins(pins, d))
  {
    RetainMembers(pins, d);
    RetainLength(pins, d);
    if Increasing(pins) {
      RetainIncreasing(pins, d);
    }
  }

  lemma {:induction false} RetainWorkspacesFacts(ws: seq<Workspace>, dropped: string, paths: Paths)
    ensures forall w :: w in RetainWorkspaces(ws, dropped) <==> w in ws && w.projectId != dropped
    ensures UniqueIds(ws) ==> UniqueIds(RetainWorkspaces(ws, dropped))
    ensures UniquePaths(ws, paths) ==> UniquePaths(RetainWorkspaces(ws, dropped), paths)
  {
    if ws != [] {
      RetainWorkspacesFacts(ws[1..], dropped, paths);
      var rest := RetainWorkspaces(ws[1..], dropped);
      forall j | 0 <= j < |rest| ensures rest[j] in ws[1..] {
      }
      RetainUnique(ws, dropped, paths);
    }
  }

  lemma {:induction false} RetainUnique(ws: seq<Workspace>, dropped: string, paths: Paths)
    requires ws != [] && forall w :: w in RetainWorkspaces(ws[1..], dropped) ==> w in ws[1..]
    requires UniqueIds(ws) ==> UniqueIds(RetainWorkspaces(ws[1..], dropped))
    requires UniquePaths(ws, paths) ==> UniquePaths(RetainWorkspaces(ws[1..], dropped), paths)
    ensures UniqueIds(ws) ==> UniqueIds(RetainWorkspaces(ws, dropped))
    ensures UniquePaths(ws, paths) ==> UniquePaths(RetainWorkspaces(ws, dropped), paths)
  {
    var rest := RetainWorkspaces(ws[1..], dropped);
    forall j | 0 <= j < |rest| ensures exists k :: 0 < k < |ws| && rest[j] == ws[k] {
      assert rest[j] in ws[1..];
      var k :| 0 <= k < |ws[1..]| && ws[1..][k] == rest[j];
      assert ws[k + 1] == rest[j];
    }
  }

  /** Adding an entry whose id and path are new. */
  lemma {:induction false} AppendSound<R>(s: State<R>, entry: Workspace, paths: Paths)
    requires Sound(s, paths) && Find(s.workspaces, entry.projectId).None?
    requires FindPath(s.workspaces, paths.normal(entry.path), paths).None?
    ensures Sound(s.(workspaces := s.workspaces + [entry], last := Some(entry.projectId)), paths)
  {
    var ws := s.workspaces + [entry];
    assert entry in ws;
    assert forall w :: w in s.workspaces ==> w in ws;
    RegisteredGrows(s.workspaces, ws);
    assert Registered(ws, entry.projectId);
  }

  lemma {:induction false} RegisteredGrows(a: seq<Workspace>, b: seq<Workspace>)
    requires forall w :: w in a ==> w in b
    ensures forall id :: Registered(a, id) ==> Registered(b, id)
  {
  }

  lemma {:induction false} MaxOrderTaken(pins: seq<Pin>)
    requires MaxOrder(pins) > 0
    ensures exists p :: p in pins && p.order == MaxOrder(pins)
  {
    if pins[0].order == MaxOrder(pins) {
      assert pins[0] in pins;
    } else {
      MaxOrderTaken(pins[1..]);
      var p :| p in pins[1..] && p.order == MaxOrder(pins);
      assert p in pins;
    }
  }

  lemma {:induction false} NextIncreasingIff(pins: seq<Pin>, projectId: string, taskId: string)
    requires Increasing(pins)
    ensures Increasing(pins + [Pin(projectId, taskId, NextOrder(pins))]) <==> MaxOrder(pins) < USIZE_MAX
  {
    var more := pins + [Pin(projectId, taskId, NextOrder(pins))];
    if MaxOrder(pins) < USIZE_MAX {
      forall i, j | 0 <= i < j < |more| ensures more[i].order < more[j].order {
        assert more[i] in pins;
      }
    } else {
      MaxOrderTaken(pins);
      var p :| p in pins && p.order == MaxOrder(pins);
      var i :| 0 <= i < |pins| && pins[i] == p;
      assert more[i].order > more[|pins|].order;
    }
  }

  lemma {:induction false} PinSoundIff<R>(s: State<R>, projectId: string, taskId: string, paths: Paths)
    requires Sound(s, paths) && Registered(s.workspaces, projectId)
    ensures Sound(s.(pins := s.pins + [Pin(projectId, taskId, NextOrder(s.pins))]), paths) <==> MaxOrder(s.pins) < USIZE_MAX
  {
    NextIncreasingIff(s.pins, projectId, taskId);
    assert forall p :: p in s.pins + [Pin(projectId, taskId, NextOrder(s.pins))] ==> p in s.pins || p.projectId == projectId;
  }

  lemma {:induction false} DroppingSound<R>(s: State<R>, d: Drop, paths: Paths)
    requires Sound(s, paths)
    ensures Sound(Dropping(s, d).state, paths)
  {
    RetainPinsFacts(s.pins, d);
  }

  lemma {:induction false} ReorderSound<R>(s: State<R>, ordered: seq<Pin>, paths: Paths)
    requires Sound(s, paths) && FirstUnknown(s.workspaces, ordered).None?
    ensures Sound(s.(pins := Numbered(ordered, 0)), paths)
  {
    var pins := Numbered(ordered, 0);
    forall p | p in pins ensures Registered(s.workspaces, p.projectId) {
      var k :| 0 <= k < |pins| && pins[k] == p;
      assert ordered[k] in ordered;
      FindIff(s.workspaces, p.projectId);
    }
  }

  lemma {:induction false} RemoveSound<R>(s: State<R>, id: string, paths: Paths)
    requires Sound(s, paths)
    ensures Sound(Removed(s, id), paths)
  {
    var ws := RetainWorkspaces(s.workspaces, id);
    RetainWorkspacesFacts(s.workspaces, id, paths);
    RetainPinsFacts(s.pins, DropProject(id));
    forall other | Registered(s.workspaces, other) && other != id ensures Registered(ws, other) {
      var w :| w in s.workspaces && w.projectId == other;
      assert w in ws;
    }
    if s.last == Some(id) {
      assert ws != [] ==> ws[0] in ws;
    } else if s.last.Some? {
      assert Registered(ws, s.last.value);
    } else {
      assert s.workspaces == [] && ws == [];
    }
  }

  /** A new pin for which no greater number is left. */
  predicate Overflows<R>(s: State<R>, c: Command<R>) {
    && c.PinTask? && MaxOrder(s.pins) >= USIZE_MAX
    && Registered(s.workspaces, c.projectId) && !Pinned(s.pins, c.projectId, c.taskId)
  }

  /** Every command keeps the registry sound, except exactly a pin whose number overflows. */
  lemma {:induction false} CommandKeepsSoundIff<R>(s: State<R>, c: Command<R>, paths: Paths)
    requires Sound(s, paths)
    ensures Sound(Apply(s, c, paths).state, paths) <==> !Overflows(s, c)
  {
    match c
    case PinTask(projectId, taskId) =>
      FindIff(s.workspaces, projectId);
      if Find(s.workspaces, projectId).Some? {
        PinSoundIff(s, projectId, taskId, paths);
      }
    case UnpinTask(projectId, taskId) =>
      DroppingSound(s, DropPin(projectId, taskId), paths);
    case Reorder(ordered) =>
      if FirstUnknown(s.workspaces, ordered).None? {
        ReorderSound(s, ordered, paths);
      }
    case Add(path, now) =>
      AddSound(s, path, now, paths);
    case Sync(path, now) =>
      AddSound(s, path, now, paths);
    case Remove(projectId) =>
      RemoveSound(s, projectId, paths);
    case SetLast(projectId) =>
      FindIff(s.workspaces, projectId);
    case SetRunMode(projectId, mode) =>
      FindIff(s.workspaces, projectId);
    case DeleteTask(resolvedId, taskId) =>
      DroppingSound(s, DropPin(resolvedId, taskId), paths);
  }

  lemma {:induction false} AddSound<R>(s: State<R>, path: string, now: string, paths: Paths)
    requires Sound(s, paths)
    ensures var entry := Entry(path, now, paths);
      Find(s.workspaces, entry.projectId).None? && FindPath(s.workspaces, paths.normal(path), paths).None? ==>
        Sound(s.(workspaces := s.workspaces + [entry], last := Some(entry.projectId)), paths)
  {
    var entry := Entry(path, now, paths);
    if Find(s.workspaces, entry.projectId).None? && FindPath(s.workspaces, paths.normal(path), paths).None? {
      AppendSound(s, entry, paths);
    }
  }

  function Run<R>(s: State<R>, commands: seq<Command<R>>, paths: Paths): State<R>
    decreases |commands|
  {
    if commands == [] then s else Run(Apply(s, commands[0], paths).state, commands[1..], paths)
  }

  function Empty<R>(version: nat): State<R> {
    State(version, [], [], map[], None)
  }

  /** By how much a command can raise the greatest pin number. */
  function Demand<R>(c: Command<R>): nat {
    if c.PinTask? then 1 else if c.Reorder? then |c.ordered| else 0
  }

  function TotalDemand<R>(commands: seq<Command<R>>): nat {
    if commands == [] then 0 else Demand(commands[0]) + TotalDemand(commands[1..])
  }

  lemma {:induction false} MaxOrderBound(pins: seq<Pin>, bound: nat)
    requires forall p :: p in pins ==> p.order <= bound
    ensures MaxOrder(pins) <= bound
  {
    if MaxOrder(pins) > 0 {
      MaxOrderTaken(pins);
    }
  }

  lemma {:induction false} RetainedBound(pins: seq<Pin>, d: Drop)
    ensures MaxOrder(RetainPins(pins, d)) <= MaxOrder(pins)
  {
    RetainMembers(pins, d);
    MaxOrderBound(RetainPins(pins, d), MaxOrder(pins));
  }

  lemma {:induction false} ReorderedBound(ordered: seq<Pin>)
    ensures MaxOrder(Numbered(ordered, 0)) <= |ordered|
  {
    MaxOrderBound(Numbered(ordered, 0), |ordered|);
  }

  lemma {:induction false} PinnedBound(pins: seq<Pin>, projectId: string, taskId: string)
    ensures MaxOrder(pins + [Pin(projectId, taskId, NextOrder(pins))]) <= MaxOrder(pins) + 1
  {
    MaxOrderBound(pins + [Pin(projectId, taskId, NextOrder(pins))], MaxOrder(pins) + 1);
  }

  lemma {:induction false} DemandBounds<R>(s: State<R>, c: Command<R>, paths: Paths)
    ensures MaxOrder(Apply(s, c, paths).state.pins) <= MaxOrder(s.pins) + Demand(c)
  {
    match c
    case PinTask(projectId, taskId) => PinnedBound(s.pins, projectId, taskId);
    case UnpinTask(projectId, taskId) => RetainedBound(s.pins, DropPin(projectId, taskId));
    case Reorder(ordered) => ReorderedBound(ordered);
    case Remove(projectId) => RetainedBound(s.pins, DropProject(projectId));
    case DeleteTask(resolvedId, taskId) => RetainedBound(s.pins, DropPin(resolvedId, taskId));
    case _ =>
  }

  /** Every run of commands keeps the registry sound, as long as the pin numbers it can need fit a machine word. */
  lemma {:induction false} RunKeepsSound<R>(s: State<R>, commands: seq<Command<R>>, paths: Paths)
    requires Sound(s, paths) && MaxOrder(s.pins) + TotalDemand(commands) <= USIZE_MAX
    ensures Sound(Run(s, commands, paths), paths)
    decreases |commands|
  {
    if commands != [] {
      CommandKeepsSoundIff(s, commands[0], paths);
      DemandBounds(s, commands[0], paths);
      RunKeepsSound(Apply(s, commands[0], paths).state, commands[1..], paths);
    }
  }

  lemma {:induction false} AllRunsSound<R>(version: nat, commands: seq<Command<R>>, paths: Paths)
    requires TotalDemand(commands) <= USIZE_MAX
    ensures Sound(Run(Empty<R>(version), commands, paths), paths)
  {
    RunKeepsSound(Empty<R>(version), commands, paths);
  }

  /** The overflow occurs: the pin after the greatest number is stored with number 0. */
  lemma {:induction false} PinNumberWraps(paths: Paths)
    ensures var s: State<string> :=
        State(2, [Workspace("p", "/p", "p", "now")], [Pin("p", "t", USIZE_MAX)], map[], Some("p"));
      Sound(s, paths) && !Sound(Apply(s, PinTask("p", "u"), paths).state, paths)
  {
    var s: State<string> := State(2, [Workspace("p", "/p", "p", "now")], [Pin("p", "t", USIZE_MAX)], map[], Some("p"));
    assert s.workspaces[0] in s.workspaces && s.pins[0] in s.pins;
    CommandKeepsSoundIff(s, PinTask("p", "u"), paths);
  }

  /** A command that does not ask for a save, in particular every failing one, has changed nothing. */
  lemma {:induction false} CleanChangesNothing<R>(s: State<R>, c: Command<R>, paths: Paths)
    ensures !Apply(s, c, paths).dirty ==> Apply(s, c, paths).state == s
    ensures Apply(s, c, paths).error.Some? ==> !Apply(s, c, paths).dirty
  {
    match c
    case UnpinTask(projectId, taskId) => RetainPinsFacts(s.pins, DropPin(projectId, taskId));
    case DeleteTask(resolvedId, taskId) => RetainPinsFacts(s.pins, DropPin(resolvedId, taskId));
    case _ =>
  }

  // ---- Duplicate pins ----

  predicate SameTask(a: Pin, b: Pin) {
    a.projectId == b.projectId && a.taskId == b.taskId
  }

  ghost predicate DistinctPins(pins: seq<Pin>) {
    forall i, j :: 0 <= i < j < |pins| ==> !SameTask(pins[i], pins[j])
  }

  lemma {:induction false} RetainDistinct(pins: seq<Pin>, d: Drop)
    requires DistinctPins(pins)
    ensures DistinctPins(RetainPins(pins, d))
  {
    if pins != [] {
      RetainMembers(pins[1..], d);
      RetainDistinct(pins[1..], d);
      assert [pins[0]] + pins[1..] == pins;
      ConsDistinct(pins[0], pins[1..], RetainPins(pins[1..], d));
    }
  }

  lemma {:induction false} ConsDistinct(pin: Pin, pins: seq<Pin>, rest: seq<Pin>)
    requires DistinctPins([pin] + pins) && DistinctPins(rest) && forall p :: p in rest ==> p in pins
    ensures DistinctPins([pin] + rest)
  {
    forall j | 0 <= j < |rest| ensures !SameTask(pin, rest[j]) {
      assert rest[j] in pins;
      var k :| 0 <= k < |pins| && pins[k] == rest[j];
      assert ([pin] + pins)[0] == pin && ([pin] + pins)[k + 1] == rest[j];
    }
  }

  lemma {:induction false} NumberedDistinctIff(pins: seq<Pin>)
    ensures DistinctPins(Numbered(pins, 0)) <==> DistinctPins(pins)
  {
    var numbered := Numbered(pins, 0);
    forall i, j | 0 <= i < j < |pins| ensures SameTask(numbered[i], numbered[j]) <==> SameTask(pins[i], pins[j]) {
    }
  }

  /**
   No command pins a task twice, with one exception: a reorder puts in place whatever list it is given,
   so it keeps pins distinct exactly if the submitted list names no task twice or is refused.
   */
  lemma {:induction false} DistinctPinsKeptIff<R>(s: State<R>, c: Command<R>, paths: Paths)
    requires DistinctPins(s.pins)
    ensures DistinctPins(Apply(s, c, paths).state.pins) <==>
            (c.Reorder? && FirstUnknown(s.workspaces, c.ordered).None? ==> DistinctPins(c.ordered))
  {
    match c
    case UnpinTask(projectId, taskId) => RetainDistinct(s.pins, DropPin(projectId, taskId));
    case DeleteTask(resolvedId, taskId) => RetainDistinct(s.pins, DropPin(resolvedId, taskId));
    case Remove(projectId) => RetainDistinct(s.pins, DropProject(projectId));
    case Reorder(ordered) => NumberedDistinctIff(ordered);
    case PinTask(projectId, taskId) => PinDistinct(s.pins, projectId, taskId, NextOrder(s.pins));
    case _ =>
  }

  lemma {:induction false} PinDistinct(pins: seq<Pin>, projectId: string, taskId: string, order: nat)
    requires DistinctPins(pins)
    ensures !Pinned(pins, projectId, taskId) ==> DistinctPins(pins + [Pin(projectId, taskId, order)])
  {
    forall i | 0 <= i < |pins| && !Pinned(pins, projectId, taskId)
      ensures !SameTask(pins[i], Pin(projectId, taskId, order))
    {
      assert pins[i] in pins;
    }
  }

  /** The exception occurs: an accepted reorder of a sound registry pins a task twice. */
  lemma {:induction false} ReorderDuplicatesPin(paths: Paths)
    ensures var pin := Pin("p", "t", 0);
      var s: State<string> := State(2, [Workspace("p", "/p", "p", "now")], [pin], map[], Some("p"));
      var after := Apply(s, Reorder([pin, pin]), paths);
      && Sound(s, paths) && DistinctPins(s.pins) && after.error.None? && after.dirty
      && !DistinctPins(after.state.pins)
  {
    var pin := Pin("p", "t", 0);
    var s: State<string> := State(2, [Workspace("p", "/p", "p", "now")], [pin], map[], Some("p"));
    assert s.workspaces[0] in s.workspaces;
    assert SameTask([pin, pin][0], [pin, pin][1]);
    DistinctPinsKeptIff(s, Reorder([pin, pin]), paths);
  }

  // ---- What commands undo ----

  lemma {:induction false} RetainNone(pins: seq<Pin>, d: Drop)
    requires forall p :: p in pins ==> !Drops(d, p)
    ensures RetainPins(pins, d) == pins
  {
    if pins != [] {
      assert pins[0] in pins;
      RetainNone(pins[1..], d);
    }
  }

  lemma {:induction false} RetainDropsLast(pins: seq<Pin>, last: Pin, d: Drop)
    requires (forall p :: p in pins ==> !Drops(d, p)) && Drops(d, last)
    ensures RetainPins(pins + [last], d) == pins
  {
    if pins == [] {
      assert pins + [last] == [last] && [last][1..] == [];
    } else {
      assert (pins + [last])[1..] == pins[1..] + [last];
      assert pins[0] in pins;
      RetainDropsLast(pins[1..], last, d);
    }
  }

  /** Unpinning undoes pinning exactly if the task was not pinned before. */
  lemma {:induction false} UnpinUndoesPinIff<R>(s: State<R>, projectId: string, taskId: string, paths: Paths)
    requires Registered(s.workspaces, projectId)
    ensures var pinned := Apply(s, PinTask(projectId, taskId), paths).state;
      && Pinned(pinned.pins, projectId, taskId)
      && (Apply(pinned, UnpinTask(projectId, taskId), paths).state == s <==> !Pinned(s.pins, projectId, taskId))
  {
    FindIff(s.workspaces, projectId);
    if Pinned(s.pins, projectId, taskId) {
      UnpinLosesPin(s.pins, projectId, taskId);
    } else {
      UnpinDropsNew(s.pins, Pin(projectId, taskId, NextOrder(s.pins)));
    }
  }

  lemma {:induction false} UnpinLosesPin(pins: seq<Pin>, projectId: string, taskId: string)
    requires Pinned(pins, projectId, taskId)
    ensures RetainPins(pins, DropPin(projectId, taskId)) != pins
  {
    var p :| p in pins && p.projectId == projectId && p.taskId == taskId;
    RetainMembers(pins, DropPin(projectId, taskId));
    assert p !in RetainPins(pins, DropPin(projectId, taskId));
  }

  lemma {:induction false} UnpinDropsNew(pins: seq<Pin>, added: Pin)
    requires !Pinned(pins, added.projectId, added.taskId)
    ensures Pinned(pins + [added], added.projectId, added.taskId)
    ensures RetainPins(pins + [added], DropPin(added.projectId, added.taskId)) == pins
  {
    RetainDropsLast(pins, added, DropPin(added.projectId, added.taskId));
    assert added in pins + [added];
  }

  /** A removed workspace leaves no trace; everything about the others stays. */
  lemma {:induction false} RemoveForgets<R>(s: State<R>, id: string, paths: Paths)
    requires Sound(s, paths) && Registered(s.workspaces, id)
    ensures var s' := Apply(s, Remove(id), paths).state;
      && !Registered(s'.workspaces, id) && id !in s'.runModes && s'.last != Some(id)
      && (forall p :: p in s'.pins <==> p in s.pins && p.projectId != id)
      && (forall w :: w in s'.workspaces <==> w in s.workspaces && w.projectId != id)
      && (forall other :: other != id ==>
            (other in s'.runModes <==> other in s.runModes) &&
            (other in s.runModes ==> s'.runModes[other] == s.runModes[other]))
  {
    FindIff(s.workspaces, id);
    RetainWorkspacesFacts(s.workspaces, id, paths);
    RetainPinsFacts(s.pins, DropProject(id));
    var ws := RetainWorkspaces(s.workspaces, id);
    assert ws != [] ==> ws[0] in ws;
  }

  lemma {:induction false} RetainAllWorkspaces(ws: seq<Workspace>, last: Workspace)
    requires Find(ws, last.projectId).None?
    ensures RetainWorkspaces(ws + [last], last.projectId) == ws
  {
    if ws == [] {
      assert ws + [last] == [last] && [last][1..] == [];
    } else {
      assert (ws + [last])[1..] == ws[1..] + [last];
      assert ws[0] in ws;
      RetainAllWorkspaces(ws[1..], last);
    }
  }

  /** Removing a workspace just added gives the registry back, with the first workspace as the last used. */
  lemma {:induction false} RemoveUndoesAdd<R>(s: State<R>, path: string, now: string, paths: Paths)
    requires Sound(s, paths) && Apply(s, Add(path, now), paths).error.None?
    ensures var added := Apply(s, Add(path, now), paths).state;
      Apply(added, Remove(ProjectId(path, paths)), paths).state == s.(last := FirstId(s.workspaces))
  {
    var entry := Entry(path, now, paths);
    var added := s.(workspaces := s.workspaces + [entry], last := Some(entry.projectId));
    AddApplied(s, path, now, paths);
    FindNew(s.workspaces, entry);
    RemovedNew(s, entry, paths);
    RemoveApplied(added, entry.projectId, paths);
  }

  lemma {:induction false} AddApplied<R>(s: State<R>, path: string, now: string, paths: Paths)
    requires Apply(s, Add(path, now), paths).error.None?
    ensures var entry := Entry(path, now, paths);
      && Find(s.workspaces, entry.projectId).None?
      && Apply(s, Add(path, now), paths).state ==
         s.(workspaces := s.workspaces + [entry], last := Some(entry.projectId))
  {
  }

  lemma {:induction false} RemoveApplied<R>(s: State<R>, id: string, paths: Paths)
    requires Find(s.workspaces, id).Some?
    ensures Apply(s, Remove(id), paths).state == Removed(s, id)
  {
  }

  lemma {:induction false} FindNew(ws: seq<Workspace>, entry: Workspace)
    ensures Find(ws + [entry], entry.projectId).Some?
  {
    assert entry in ws + [entry];
  }

  lemma {:induction false} RemovedNew<R>(s: State<R>, entry: Workspace, paths: Paths)
    requires Sound(s, paths) && Find(s.workspaces, entry.projectId).None?
    ensures Removed(s.(workspaces := s.workspaces + [entry], last := Some(entry.projectId)), entry.projectId) ==
            s.(last := FirstId(s.workspaces))
  {
    RetainAllWorkspaces(s.workspaces, entry);
    FindIff(s.workspaces, entry.projectId);
    RetainNone(s.pins, DropProject(entry.projectId));
    assert s.runModes - {entry.projectId} == s.runModes;
  }

  /** Synchronizing a path makes its one workspace the last used; doing it again changes nothing. */
  lemma {:induction false} SyncTwice<R>(s: State<R>, path: string, now: string, later: string, paths: Paths)
    requires Sound(s, paths) && Apply(s, Sync(path, now), paths).error.None?
    ensures var s' := Apply(s, Sync(path, now), paths).state;
      && (exists w :: w in s'.workspaces && paths.normal(w.path) == paths.normal(path) && s'.last == Some(w.projectId))
      && Apply(s', Sync(path, later), paths).state == s' && Apply(s', Sync(path, later), paths).error.None?
  {
    var s' := Apply(s, Sync(path, now), paths).state;
    var known := FindPath(s.workspaces, paths.normal(path), paths);
    if known.None? {
      var entry := Entry(path, now, paths);
      assert entry in s'.workspaces;
      FindLastPath(s.workspaces, entry, paths);
    } else {
      assert known.value in s'.workspaces;
    }
  }

  lemma {:induction false} FindLastPath(ws: seq<Workspace>, entry: Workspace, paths: Paths)
    requires FindPath(ws, paths.normal(entry.path), paths).None?
    ensures FindPath(ws + [entry], paths.normal(entry.path), paths) == Some(entry)
  {
    if ws == [] {
      assert ws + [entry] == [entry];
    } else {
      assert (ws + [entry])[1..] == ws[1..] + [entry];
      assert ws[0] in ws;
      FindLastPath(ws[1..], entry, paths);
    }
  }
}
