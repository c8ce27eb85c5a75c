/**
 The workspace registry: workspaces, pinned conversations, run modes and the last-used workspace
 (src-tauri/src/commands_conversation.rs, src-tauri/src/conversation_workspace.rs:118-161). Every
 command is one transaction that reports whether the state has to be saved.
 */
module Registry {
  import opened Wrappers

  datatype Workspace = Workspace(projectId: string, path: string, name: string, addedAt: string)
  datatype Pin = Pin(projectId: string, taskId: string, order: nat)

  /** `R` is everything a run mode entry records. */
  datatype State<R> = State(
    version: nat,
    workspaces: seq<Workspace>,
    pins: seq<Pin>,
    runModes: map<string, R>,
    last: Option<string>)

  /** How paths are read: normal form, project id of a normal form, final component. */
  datatype Paths = Paths(normal: string -> string, idOf: string -> string, fileName: string -> Option<string>)

  function ProjectId(path: string, paths: Paths): string {
    paths.idOf(paths.normal(path))
  }

  datatype CommandError = NotFound(projectId: string) | AlreadyExists(name: string) | IdCollision(projectId: string)

  // ---- Lookups ----

  /** `find_workspace_entry`. */
  function Find(workspaces: seq<Workspace>, projectId: string): (r: Option<Workspace>)
    ensures r.Some? ==> r.value in workspaces && r.value.projectId == projectId
    ensures r.None? ==> forall w :: w in workspaces ==> w.projectId != projectId
  {
    if workspaces == [] then None
    else if workspaces[0].projectId == projectId then Some(workspaces[0])
    else Find(workspaces[1..], projectId)
  }

  function FindPath(workspaces: seq<Workspace>, normal: string, paths: Paths): (r: Option<Workspace>)
    ensures r.Some? ==> r.value in workspaces && paths.normal(r.value.path) == normal
    ensures r.None? ==> forall w :: w in workspaces ==> paths.normal(w.path) != normal
  {
    if workspaces == [] then None
    else if paths.normal(workspaces[0].path) == normal then Some(workspaces[0])
    else FindPath(workspaces[1..], normal, paths)
  }

  predicate Registered(workspaces: seq<Workspace>, projectId: string) {
    exists w :: w in workspaces && w.projectId == projectId
  }

  predicate Pinned(pins: seq<Pin>, projectId: string, taskId: string) {
    exists p :: p in pins && p.projectId == projectId && p.taskId == taskId
  }

  // ---- Updates of lists ----

  /** What `retain` drops from the pins. */
  datatype Drop = DropPin(projectId: string, taskId: string) | DropProject(project: string)

  predicate Drops(d: Drop, pin: Pin) {
    match d
    case DropPin(projectId, taskId) => pin.projectId == projectId && pin.taskId == taskId
    case DropProject(project) => pin.projectId == project
  }

  function RetainPins(pins: seq<Pin>, d: Drop): (r: seq<Pin>)
    ensures |r| <= |pins|
  {
    if pins == [] then [] else (if Drops(d, pins[0]) then [] else [pins[0]]) + RetainPins(pins[1..], d)
  }

  function RetainWorkspaces(workspaces: seq<Workspace>, dropped: string): seq<Workspace> {
    if workspaces == [] then []
    else (if workspaces[0].projectId == dropped then [] else [workspaces[0]]) + RetainWorkspaces(workspaces[1..], dropped)
  }

  function MaxOrder(pins: seq<Pin>): (m: nat)
    ensures forall p :: p in pins ==> p.order <= m
  {
    if pins == [] then 0
    else
      var m := MaxOrder(pins[1..]);
      if pins[0].order > m then pins[0].order else m
  }

  const USIZE_MAX: nat := 0xFFFF_FFFF_FFFF_FFFF

  /** The number after the greatest one, which wraps around at the machine word. */
  function NextOrder(pins: seq<Pin>): nat {
    if MaxOrder(pins) >= USIZE_MAX then 0 else MaxOrder(pins) + 1
  }

  /** The pins numbered by their place, from number `i` on. */
  function Numbered(pins: seq<Pin>, i: nat): (r: seq<Pin>)
    ensures |r| == |pins|
    ensures forall k :: 0 <= k < |pins| ==> r[k] == pins[k].(order := i + k)
  {
    if pins == [] then [] else [pins[0].(order := i)] + Numbered(pins[1..], i + 1)
  }

  lemma {:induction false} NumberedStep(normalized: seq<Pin>, rest: seq<Pin>, i: nat, pin: Pin)
    requires rest != [] && pin == rest[0].(order := i)
    ensures normalized + Numbered(rest, i) == (normalized + [pin]) + Numbered(rest[1..], i + 1)
  {
  }

  /** The first submitted pin whose workspace is unknown. */
  function FirstUnknown(workspaces: seq<Workspace>, pins: seq<Pin>): (r: Option<string>)
    ensures r.None? <==> forall p :: p in pins ==> Find(workspaces, p.projectId).Some?
  {
    if pins == [] then None
    else if Find(workspaces, pins[0].projectId).None? then Some(pins[0].projectId)
    else FirstUnknown(workspaces, pins[1..])
  }

  // ---- Commands ----

  datatype Command<R> =
    | PinTask(projectId: string, taskId: string)
    | UnpinTask(projectId: string, taskId: string)
    | Reorder(ordered: seq<Pin>)
    | Add(path: string, now: string)
    | Sync(path: string, now: string)
    | Remove(projectId: string)
    | SetLast(projectId: string)
    | SetRunMode(projectId: string, mode: R)
    | DeleteTask(resolvedId: string, taskId: string)

  datatype Step<R> = Step(state: State<R>, dirty: bool, error: Option<CommandError>)

  function Failed<R>(s: State<R>, e: CommandError): Step<R> {
    Step(s, false, Some(e))
  }

  function Done<R>(s: State<R>, dirty: bool): Step<R> {
    Step(s, dirty, None)
  }

  function Entry(path: string, now: string, paths: Paths): Workspace {
    Workspace(ProjectId(path, paths), path, paths.fileName(path).GetOr(path), now)
  }

  function Dropping<R>(s: State<R>, d: Drop): Step<R> {
    var pins := RetainPins(s.pins, d);
    Done(s.(pins := pins), |pins| != |s.pins|)
  }

  function FirstId(workspaces: seq<Workspace>): Option<string> {
    if workspaces == [] then None else Some(workspaces[0].projectId)
  }

  /** `remove_workspace_from_state`. */
  function Removed<R>(s: State<R>, id: string): State<R> {
    var workspaces := RetainWorkspaces(s.workspaces, id);
    s.(workspaces := workspaces,
       pins := RetainPins(s.pins, DropProject(id)),
       runModes := s.runModes - {id},
       last := if s.last == Some(id) then FirstId(workspaces) else s.last)
  }

  function Apply<R>(s: State<R>, c: Command<R>, paths: Paths): Step<R> {
    match c
    case PinTask(projectId, taskId) =>
      if Find(s.workspaces, projectId).None? then Failed(s, NotFound(projectId))
      else if Pinned(s.pins, projectId, taskId) then Done(s, false)
      else Done(s.(pins := s.pins + [Pin(projectId, taskId, NextOrder(s.pins))]), true)
    case UnpinTask(projectId, taskId) =>
      if Find(s.workspaces, projectId).None? then Failed(s, NotFound(projectId))
      else Dropping(s, DropPin(projectId, taskId))
    case Reorder(ordered) =>
      var unknown := FirstUnknown(s.workspaces, ordered);
      if unknown.Some? then Failed(s, NotFound(unknown.value)) else Done(s.(pins := Numbered(ordered, 0)), true)
    case Add(path, now) =>
      var entry := Entry(path, now, paths);
      if FindPath(s.workspaces, paths.normal(path), paths).Some? then Failed(s, AlreadyExists(entry.name))
      else if Find(s.workspaces, entry.projectId).Some? then Failed(s, IdCollision(entry.projectId))
      else Done(s.(workspaces := s.workspaces + [entry], last := Some(entry.projectId)), true)
    case Sync(path, now) =>
      var entry := Entry(path, now, paths);
      var known := FindPath(s.workspaces, paths.normal(path), paths);
      if known.Some? then Done(s.(last := Some(known.value.projectId)), true)
      else if Find(s.workspaces, entry.projectId).Some? then Failed(s, IdCollision(entry.projectId))
      else Done(s.(workspaces := s.workspaces + [entry], last := Some(entry.projectId)), true)
    case Remove(projectId) =>
      if Find(s.workspaces, projectId).None? then Failed(s, NotFound(projectId)) else Done(Removed(s, projectId), true)
    case SetLast(projectId) =>
      if Find(s.workspaces, projectId).None? then Failed(s, NotFound(projectId))
      else Done(s.(last := Some(projectId)), true)
    case SetRunMode(projectId, mode) =>
      if Find(s.workspaces, projectId).None? then Failed(s, NotFound(projectId))
      else Done(s.(runModes := s.runModes[projectId := mode]), true)
    case DeleteTask(resolvedId, taskId) =>
      Dropping(s, DropPin(resolvedId, taskId))
  }

  // ---- The state in memory ----

  /** The loop of `reorder_pinned_conversations`: it ends at the first unknown workspace. */
  method ResolvePins(workspaces: seq<Workspace>, ordered: seq<Pin>) returns (r: Result<seq<Pin>, string>)
    ensures r == match FirstUnknown(workspaces, ordered)
                 case None => Ok(Numbered(ordered, 0))
                 case Some(projectId) => Err(projectId)
  {
    var normalized: seq<Pin> := [];
    ghost var unknown, all, rest := FirstUnknown(workspaces, ordered), Numbered(ordered, 0), ordered;
    for i := 0 to |ordered|
      invariant rest == ordered[i..]
      invariant unknown == FirstUnknown(workspaces, rest)
      invariant normalized + Numbered(rest, i) == all
    {
      var entry := Find(workspaces, ordered[i].projectId);
      if entry.None? {
        return Err(ordered[i].projectId);
      }
      var pin := ordered[i].(projectId := entry.value.projectId, order := i);
      NumberedStep(normalized, rest, i, pin);
      normalized := normalized + [pin];
      rest := rest[1..];
    }
    assert normalized + [] == normalized;
    r := Ok(normalized);
  }

  class Store<R(==)> {
    var version: nat
    var workspaces: seq<Workspace>
    var pins: seq<Pin>
    var runModes: map<string, R>
    var last: Option<string>

    ghost function Value(): State<R>
      reads this
    {
      State(version, workspaces, pins, runModes, last)
    }

    method PinConversation(projectId: string, taskId: string, paths: Paths)
      returns (dirty: bool, error: Option<CommandError>)
      modifies this
      ensures Step(Value(), dirty, error) == Apply(old(Value()), PinTask(projectId, taskId), paths)
    {
      var entry := Find(workspaces, projectId);
      if entry.None? {
        return false, Some(NotFound(projectId));
      }
      var resolved := entry.value.projectId;
      if Pinned(pins, resolved, taskId) {
        return false, None;
      }
      var maxOrder := MaxOrder(pins);
      pins := pins + [Pin(resolved, taskId, if maxOrder >= USIZE_MAX then 0 else maxOrder + 1)];
      return true, None;
    }

    method UnpinConversation(projectId: string, taskId: string, paths: Paths)
      returns (dirty: bool, error: Option<CommandError>)
      modifies this
      ensures Step(Value(), dirty, error) == Apply(old(Value()), UnpinTask(projectId, taskId), paths)
    {
      var entry := Find(workspaces, projectId);
      if entry.None? {
        return false, Some(NotFound(projectId));
      }
      var before := |pins|;
      pins := RetainPins(pins, DropPin(entry.value.projectId, taskId));
      return |pins| != before, None;
    }

    /** The pins are replaced only if every workspace is known. */
    method ReorderPins(ordered: seq<Pin>, paths: Paths)
      returns (dirty: bool, error: Option<CommandError>)
      modifies this
      ensures Step(Value(), dirty, error) == Apply(old(Value()), Reorder(ordered), paths)
    {
      var normalized := ResolvePins(workspaces, ordered);
      if normalized.Err? {
        return false, Some(NotFound(normalized.error));
      }
      pins := normalized.value;
      return true, None;
    }

    method AddWorkspace(path: string, now: string, paths: Paths)
      returns (dirty: bool, error: Option<CommandError>)
      modifies this
      ensures Step(Value(), dirty, error) == Apply(old(Value()), Add(path, now), paths)
    {
      var entry := Entry(path, now, paths);
      if FindPath(workspaces, paths.normal(path), paths).Some? {
        return false, Some(AlreadyExists(entry.name));
      }
      if Find(workspaces, entry.projectId).Some? {
        return false, Some(IdCollision(entry.projectId));
      }
      workspaces := workspaces + [entry];
      last := Some(entry.projectId);
      return true, None;
    }

    method SyncWorkspace(path: string, now: string, paths: Paths)
      returns (dirty: bool, error: Option<CommandError>)
      modifies this
      ensures Step(Value(), dirty, error) == Apply(old(Value()), Sync(path, now), paths)
    {
      var entry := Entry(path, now, paths);
      var resolved := entry.projectId;
      var known := FindPath(workspaces, paths.normal(path), paths);
      if known.Some? {
        resolved := known.value.projectId;
      } else if Find(workspaces, entry.projectId).Some? {
        return false, Some(IdCollision(entry.projectId));
      } else {
        workspaces := workspaces + [entry];
      }
      last := Some(resolved);
      return true, None;
    }

    method RemoveWorkspace(projectId: string, paths: Paths)
      returns (dirty: bool, error: Option<CommandError>)
      modifies this
      ensures Step(Value(), dirty, error) == Apply(old(Value()), Remove(projectId), paths)
    {
      var entry := Find(workspaces, projectId);
      if entry.None? {
        return false, Some(NotFound(projectId));
      }
      var id := entry.value.projectId;
      workspaces := RetainWorkspaces(workspaces, id);
      pins := RetainPins(pins, DropProject(id));
      runModes := runModes - {id};
      if last == Some(id) {
        last := FirstId(workspaces);
      }
      return true, None;
    }

    method SaveLastWorkspace(projectId: string, paths: Paths)
      returns (dirty: bool, error: Option<CommandError>)
      modifies this
      ensures Step(Value(), dirty, error) == Apply(old(Value()), SetLast(projectId), paths)
    {
      var entry := Find(workspaces, projectId);
      if entry.None? {
        return false, Some(NotFound(projectId));
      }
      last := Some(entry.value.projectId);
      return true, None;
    }

    method SaveRunMode(projectId: string, mode: R, paths: Paths)
      returns (dirty: bool, error: Option<CommandError>)
      modifies this
      ensures Step(Value(), dirty, error) == Apply(old(Value()), SetRunMode(projectId, mode), paths)
    {
      var entry := Find(workspaces, projectId);
      if entry.None? {
        return false, Some(NotFound(projectId));
      }
      runModes := runModes[entry.value.projectId := mode];
      return true, None;
    }

    /** The final transaction of task deletion; the workspace was resolved in an earlier state. */
    method DeleteTaskPins(resolvedId: string, taskId: string, paths: Paths)
      returns (dirty: bool, error: Option<CommandError>)
      modifies this
      ensures Step(Value(), dirty, error) == Apply(old(Value()), DeleteTask(resolvedId, taskId), paths)
    {
      var before := |pins|;
      pins := RetainPins(pins, DropPin(resolvedId, taskId));
      return |pins| != before, None;
    }
  }
}
