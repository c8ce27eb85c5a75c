/**
 Migration of an old registry to canonical project ids (src-tauri/src/conversation_workspace.rs): one
 workspace per normalized path, references resolved through aliases, duplicate pins collapsed.
 */
module IdentityMigration {
  import opened Wrappers
  import opened Registry

  const CURRENT_VERSION := 2

  /** `legacy` is the project id that earlier versions derived from a path. */
  datatype Identity = Identity(paths: Paths, legacy: string -> string)

  type Alias = (string, string)

  // ---- The collision check of the plan ----

  /** One planned workspace: its new project id and its normalized path. */
  datatype PlanItem = PlanItem(newId: string, normal: string)

  ghost predicate NoCollision(plan: seq<PlanItem>) {
    forall i, j :: 0 <= i < |plan| && 0 <= j < |plan| && plan[i].newId == plan[j].newId ==> plan[i].normal == plan[j].normal
  }

  /** Every path the plan has to consider, in the order in which the paths are collected. */
  function PlanPaths(ws: seq<Workspace>, recent: seq<string>, defaultPath: Option<string>, discovered: seq<string>): seq<string> {
    seq(|ws|, i requires 0 <= i < |ws| => ws[i].path) + recent
    + (if defaultPath.Some? then [defaultPath.value] else []) + discovered
  }

  function NormalsOf(paths: seq<string>, env: Identity): set<string> {
    set p | p in paths :: env.paths.normal(p)
  }

  /** One item for each normalized path, under the project id of that path. */
  ghost predicate IsPlan(plan: seq<PlanItem>, normals: set<string>, env: Identity) {
    && (forall k :: 0 <= k < |plan| ==> plan[k].normal in normals && plan[k].newId == env.paths.idOf(plan[k].normal))
    && (forall n :: n in normals ==> PlanItem(env.paths.idOf(n), n) in plan)
    && (forall i, j :: 0 <= i < j < |plan| ==> plan[i].normal != plan[j].normal)
  }

  /** No two normalized paths of the set have the same project id. */
  ghost predicate Separate(normals: set<string>, env: Identity) {
    forall a, b :: a in normals && b in normals && env.paths.idOf(a) == env.paths.idOf(b) ==> a == b
  }

  /** In whatever order the items come, a plan is free of collisions exactly if its paths do not share ids. */
  lemma {:induction false} PlanSeparates(plan: seq<PlanItem>, normals: set<string>, env: Identity)
    requires IsPlan(plan, normals, env)
    ensures NoCollision(plan) <==> Separate(normals, env)
  {
    if NoCollision(plan) {
      forall a, b | a in normals && b in normals && env.paths.idOf(a) == env.paths.idOf(b) ensures a == b {
        var i :| 0 <= i < |plan| && plan[i] == PlanItem(env.paths.idOf(a), a);
        var j :| 0 <= j < |plan| && plan[j] == PlanItem(env.paths.idOf(b), b);
      }
    }
  }

  /** The first path of each normal form is collected; the items come out in any order. */
  method BuildPlan(paths: seq<string>, env: Identity) returns (plan: seq<PlanItem>)
    ensures IsPlan(plan, NormalsOf(paths, env), env)
  {
    var roots: map<string, string> := map[];
    for i := 0 to |paths|
      invariant roots.Keys == NormalsOf(paths[..i], env)
      invariant forall n :: n in roots ==> env.paths.normal(roots[n]) == n
    {
      assert forall p :: p in paths[..i + 1] <==> p in paths[..i] || p == paths[i];
      var normal := env.paths.normal(paths[i]);
      if normal !in roots {
        roots := roots[normal := paths[i]];
      }
    }
    assert paths[..|paths|] == paths;
    plan := [];
    var rest := roots.Keys;
    while rest != {}
      invariant rest <= roots.Keys && IsPlan(plan, roots.Keys - rest, env)
      decreases |rest|
    {
      var normal :| normal in rest;
      var item := PlanItem(ProjectId(roots[normal], env.paths), normal);
      assert forall other :: other in plan + [item] <==> other in plan || other == item;
      plan, rest := plan + [item], rest - {normal};
    }
  }

  /** The loop over `new_owners`, which overwrites the owner at each item. */
  method CheckPlan(plan: seq<PlanItem>) returns (ok: bool)
    ensures ok <==> NoCollision(plan)
  {
    var owners: map<string, string> := map[];
    for i := 0 to |plan|
      invariant NoCollision(plan[..i])
      invariant forall id :: id in owners <==> exists k :: 0 <= k < i && plan[k].newId == id
      invariant forall k :: 0 <= k < i ==> owners[plan[k].newId] == plan[k].normal
    {
      var item := plan[i];
      if item.newId in owners && owners[item.newId] != item.normal {
        var k :| 0 <= k < i && plan[k].newId == item.newId;
        return false;
      }
      owners := owners[item.newId := item.normal];
    }
    assert plan[..|plan|] == plan;
    return true;
  }

  // ---- Aliases and workspaces ----

  function AliasesOf(w: Workspace, env: Identity): seq<Alias> {
    var id := ProjectId(w.path, env.paths);
    [(w.projectId, id), (env.legacy(w.path), id), (id, id)]
  }

  function Aliases(ws: seq<Workspace>, env: Identity): seq<Alias> {
    if ws == [] then [] else AliasesOf(ws[0], env) + Aliases(ws[1..], env)
  }

  function Normal(w: Workspace, env: Identity): string {
    env.paths.normal(w.path)
  }

  function Canonical(w: Workspace, env: Identity): Workspace {
    w.(projectId := ProjectId(w.path, env.paths))
  }

  /** The first workspace of each normalized path that was not seen before, under its canonical id. */
  function Kept(ws: seq<Workspace>, seen: set<string>, env: Identity): seq<Workspace> {
    if ws == [] then []
    else
      var n := Normal(ws[0], env);
      (if n in seen then [] else [Canonical(ws[0], env)]) + Kept(ws[1..], seen + {n}, env)
  }

  function Normals(ws: seq<Workspace>, env: Identity): set<string> {
    set w | w in ws :: Normal(w, env)
  }

  /** The entry that stands for the default workspace. */
  function DefaultEntry(path: string, now: string, env: Identity): Workspace {
    Workspace(ProjectId(path, env.paths), path, env.paths.fileName(path).GetOr("Workspace"), now)
  }

  /** The default workspace is added if no registered path is the same. */
  function Added(ws: seq<Workspace>, defaultPath: Option<string>, now: string, env: Identity): seq<Workspace> {
    if defaultPath.None? || env.paths.normal(defaultPath.value) in Normals(ws, env) then []
    else [DefaultEntry(defaultPath.value, now, env)]
  }

  function AddedAliases(added: seq<Workspace>): seq<Alias> {
    if added == [] then [] else [(added[0].projectId, added[0].projectId)]
  }

  /** `canonical_project_id_for_migration` on a platform that compares paths exactly. */
  function Canon(id: string, aliases: seq<Alias>): Option<string> {
    if aliases == [] then None
    else if aliases[0].0 == id then Some(aliases[0].1)
    else Canon(id, aliases[1..])
  }

  // ---- References ----

  /** Pins under canonical ids, the first of each task only. */
  function MigratedPins(pins: seq<Pin>, seen: set<(string, string)>, aliases: seq<Alias>): seq<Pin> {
    if pins == [] then []
    else
      var c := Canon(pins[0].projectId, aliases);
      if c.None? then MigratedPins(pins[1..], seen, aliases)
      else
        var key := (c.value, pins[0].taskId);
        (if key in seen then [] else [pins[0].(projectId := c.value)]) + MigratedPins(pins[1..], seen + {key}, aliases)
  }

  /** Run modes inserted in order; a later one replaces an earlier one. */
  function Inserted<R>(ids: seq<string>, entries: map<string, R>, aliases: seq<Alias>): map<string, R>
    requires forall id :: id in ids ==> id in entries
  {
    if ids == [] then map[]
    else
      var c := Canon(ids[0], aliases);
      (if c.None? then map[] else map[c.value := entries[ids[0]]]) + Inserted(ids[1..], entries, aliases)
  }

  /** The ids of the list that are (or are not) canonical, in their order. */
  function Preferring(ids: seq<string>, canonical: set<string>, preferred: bool): (r: seq<string>)
    ensures forall id :: id in r <==> id in ids && (id in canonical <==> preferred)
  {
    if ids == [] then []
    else
      var rest := Preferring(ids[1..], canonical, preferred);
      assert forall id :: id in [ids[0]] + rest <==> id == ids[0] || id in rest;
      (if (ids[0] in canonical) == preferred then [ids[0]] else []) + rest
  }

  function Ids(ws: seq<Workspace>): set<string> {
    set w | w in ws :: w.projectId
  }

  /** The run modes, when the old map is visited in the given order and sorted by preference. */
  function MigratedModes<R>(order: seq<string>, entries: map<string, R>, canonical: set<string>, aliases: seq<Alias>)
    : map<string, R>
    requires forall id :: id in order ==> id in entries
  {
    Inserted(Preferring(order, canonical, false) + Preferring(order, canonical, true), entries, aliases)
  }

  // ---- The migration ----

  /** The workspaces and aliases of the migrated state. */
  datatype Plan = Plan(workspaces: seq<Workspace>, aliases: seq<Alias>)

  function Planned(ws: seq<Workspace>, defaultPath: Option<string>, now: string, env: Identity): Plan {
    var added := Added(ws, defaultPath, now, env);
    Plan(Kept(ws, {}, env) + added, Aliases(ws, env) + AddedAliases(added))
  }

  function Resolved(id: Option<string>, aliases: seq<Alias>): Option<string> {
    if id.None? then None else Canon(id.value, aliases)
  }

  /** The whole migrated state, for the order in which the old run modes are visited. */
  function Migrated<R>(s: State<R>, defaultPath: Option<string>, now: string, order: seq<string>, env: Identity): State<R>
    requires forall id :: id in order ==> id in s.runModes
  {
    var plan := Planned(s.workspaces, defaultPath, now, env);
    var last := Resolved(s.last, plan.aliases);
    State(CURRENT_VERSION, plan.workspaces, MigratedPins(s.pins, {}, plan.aliases),
          MigratedModes(order, s.runModes, Ids(plan.workspaces), plan.aliases),
          if last.Some? then last else FirstId(plan.workspaces))
  }

  /** The first loop: aliases of every entry, and the first entry of each normalized path. */
  method PlanWorkspaces(ws: seq<Workspace>, env: Identity)
    returns (kept: seq<Workspace>, aliases: seq<Alias>, seen: set<string>)
    ensures kept == Kept(ws, {}, env) && aliases == Aliases(ws, env) && seen == Normals(ws, env)
  {
    kept, aliases, seen := [], [], {};
    ghost var past: seq<Workspace>, rest, all, total := [], ws, Aliases(ws, env), Kept(ws, {}, env);
    for i := 0 to |ws|
      invariant past == ws[..i] && rest == ws[i..] && seen == Normals(past, env)
      invariant aliases + Aliases(rest, env) == all
      invariant kept + Kept(rest, seen, env) == total
    {
      var w := ws[i];
      PlanStep(kept, aliases, seen, rest, env);
      NormalsSnoc(past, w, env);
      aliases := aliases + AliasesOf(w, env);
      if Normal(w, env) !in seen {
        kept := kept + [Canonical(w, env)];
      }
      seen := seen + {Normal(w, env)};
      past, rest := past + [w], rest[1..];
    }
    assert past == ws && aliases + [] == aliases && kept + [] == kept;
  }

  lemma {:induction false} NormalsSnoc(ws: seq<Workspace>, w: Workspace, env: Identity)
    ensures Normals(ws + [w], env) == Normals(ws, env) + {Normal(w, env)}
  {
    assert forall v :: v in ws + [w] <==> v in ws || v == w;
  }

  lemma {:induction false} PlanStep(
    kept: seq<Workspace>, aliases: seq<Alias>, seen: set<string>, rest: seq<Workspace>, env: Identity)
    requires rest != []
    ensures var w := rest[0];
      && aliases + Aliases(rest, env) == (aliases + AliasesOf(w, env)) + Aliases(rest[1..], env)
      && kept + Kept(rest, seen, env) ==
         (if Normal(w, env) in seen then kept else kept + [Canonical(w, env)]) + Kept(rest[1..], seen + {Normal(w, env)}, env)
  {
  }

  /** The run modes visited in some order, sorted by preference, and inserted again. */
  method MigrateModes<R>(order: seq<string>, entries: map<string, R>, canonical: set<string>, aliases: seq<Alias>)
    returns (modes: map<string, R>)
    requires forall id :: id in order ==> id in entries
    ensures modes == MigratedModes(order, entries, canonical, aliases)
  {
    var ids := Preferring(order, canonical, false) + Preferring(order, canonical, true);
    modes := map[];
    ghost var rest, all := ids, Inserted(ids, entries, aliases);
    for i := 0 to |ids|
      invariant rest == ids[i..] && forall id :: id in rest ==> id in entries
      invariant modes + Inserted(rest, entries, aliases) == all
    {
      var id := ids[i];
      ModeStep(modes, rest, entries, aliases);
      var c := Canon(id, aliases);
      if c.Some? {
        modes := modes[c.value := entries[id]];
      }
      rest := rest[1..];
    }
  }

  lemma {:induction false} ModeStep<R>(
    modes: map<string, R>, rest: seq<string>, entries: map<string, R>, aliases: seq<Alias>)
    requires rest != [] && forall id :: id in rest ==> id in entries
    ensures rest[0] in entries
    ensures var c := Canon(rest[0], aliases);
      modes + Inserted(rest, entries, aliases) ==
      (if c.Some? then modes[c.value := entries[rest[0]]] else modes) + Inserted(rest[1..], entries, aliases)
  {
    assert rest[0] in rest;
  }

  method MigratePins(pins: seq<Pin>, aliases: seq<Alias>) returns (migrated: seq<Pin>)
    ensures migrated == MigratedPins(pins, {}, aliases)
  {
    var seen: set<(string, string)> := {};
    migrated := [];
    ghost var rest, all := pins, MigratedPins(pins, {}, aliases);
    for i := 0 to |pins|
      invariant rest == pins[i..]
      invariant migrated + MigratedPins(rest, seen, aliases) == all
    {
      var c := Canon(pins[i].projectId, aliases);
      PinStep(migrated, seen, rest, aliases);
      if c.Some? {
        var key := (c.value, pins[i].taskId);
        if key !in seen {
          migrated := migrated + [pins[i].(projectId := c.value)];
        }
        seen := seen + {key};
      }
      rest := rest[1..];
    }
    assert migrated + [] == migrated;
  }

  lemma {:induction false} PinStep(migrated: seq<Pin>, seen: set<(string, string)>, rest: seq<Pin>, aliases: seq<Alias>)
    requires rest != []
    ensures var c := Canon(rest[0].projectId, aliases);
      migrated + MigratedPins(rest, seen, aliases) ==
      if c.None? then migrated + MigratedPins(rest[1..], seen, aliases)
      else
        var key := (c.value, rest[0].taskId);
        (if key in seen then migrated else migrated + [rest[0].(projectId := c.value)])
        + MigratedPins(rest[1..], seen + {key}, aliases)
  {
  }

  /** `migrate_state_references`: nothing happens to a state that is current. */
  method MigrateReferences<R>(
    store: Store<R>, defaultPath: Option<string>, now: string, order: seq<string>, env: Identity)
    returns (changed: bool)
    requires forall id :: id in order ==> id in store.runModes
    modifies store
    ensures changed <==> old(store.version) < CURRENT_VERSION
    ensures store.Value() == if changed then Migrated(old(store.Value()), defaultPath, now, order, env) else old(store.Value())
  {
    if store.version >= CURRENT_VERSION {
      return false;
    }
    var workspaces, aliases, seen := PlanWorkspaces(store.workspaces, env);
    if defaultPath.Some? && env.paths.normal(defaultPath.value) !in seen {
      var entry := DefaultEntry(defaultPath.value, now, env);
      aliases := aliases + [(entry.projectId, entry.projectId)];
      workspaces := workspaces + [entry];
    }
    assert Plan(workspaces, aliases) == Planned(store.workspaces, defaultPath, now, env);
    store.workspaces := workspaces;
    store.last := Resolved(store.last, aliases);
    var modes := MigrateModes(order, store.runModes, Ids(workspaces), aliases);
    store.runModes := modes;
    var pins := MigratePins(store.pins, aliases);
    store.pins := pins;
    if store.last.None? {
      store.last := FirstId(store.workspaces);
    }
    store.version := CURRENT_VERSION;
    return true;
  }

  /**
   `WorkspaceIdentityMigrator::execute` as far as the state is concerned: nothing is migrated twice, and a
   plan with a collision (the result `None`) is refused before anything is changed.
   */
  method Execute<R>(
    store: Store<R>, done: bool, recent: seq<string>, defaultPath: Option<string>, discovered: seq<string>,
    now: string, order: seq<string>, env: Identity)
    returns (changed: Option<bool>)
    requires forall id :: id in order ==> id in store.runModes
    modifies store
    ensures changed.None? <==>
      !done && !Separate(NormalsOf(PlanPaths(old(store.workspaces), recent, defaultPath, discovered), env), env)
    ensures changed.Some? ==> (changed.value <==> !done && old(store.version) < CURRENT_VERSION)
    ensures store.Value() ==
      if changed == Some(true) then Migrated(old(store.Value()), defaultPath, now, order, env) else old(store.Value())
  {
    if done {
      return Some(false);
    }
    var paths := PlanPaths(store.workspaces, recent, defaultPath, discovered);
    var plan := BuildPlan(paths, env);
    PlanSeparates(plan, NormalsOf(paths, env), env);
    var ok := CheckPlan(plan);
    if !ok {
      return None;
    }
    var migrated := MigrateReferences(store, defaultPath, now, order, env);
    return Some(migrated);
  }
}
