/**
 What the identity migration yields from any old state, and when running it again changes nothing.
 */
module IdentityTheorems {
  import opened Wrappers
  import opened Collections
  import opened Registry
  import opened RegistryTheorems
  import opened IdentityMigration

  // ---- Workspaces ----

  lemma {:induction false} KeptFrom(ws: seq<Workspace>, seen: set<string>, env: Identity, k: Workspace)
    requires k in Kept(ws, seen, env)
    ensures exists w :: w in ws && Normal(w, env) !in seen && k == Canonical(w, env)
  {
    var n := Normal(ws[0], env);
    var rest := Kept(ws[1..], seen + {n}, env);
    if k in rest {
      KeptFrom(ws[1..], seen + {n}, env, k);
      var w :| w in ws[1..] && Normal(w, env) !in seen + {n} && k == Canonical(w, env);
      assert w in ws;
    } else {
      assert ws[0] in ws;
    }
  }

  lemma {:induction false} KeptCovers(ws: seq<Workspace>, seen: set<string>, env: Identity, w: Workspace)
    requires w in ws && Normal(w, env) !in seen
    ensures exists k :: k in Kept(ws, seen, env) && Normal(k, env) == Normal(w, env)
  {
    var n := Normal(ws[0], env);
    var kept, rest := Kept(ws, seen, env), Kept(ws[1..], seen + {n}, env);
    if Normal(w, env) == n {
      assert kept[0] in kept;
    } else {
      assert w in ws[1..];
      KeptCovers(ws[1..], seen + {n}, env, w);
      var k :| k in rest && Normal(k, env) == Normal(w, env);
      assert k in kept;
    }
  }

  lemma {:induction false} KeptMembers(ws: seq<Workspace>, env: Identity)
    ensures forall k :: k in Kept(ws, {}, env) ==> k.projectId == ProjectId(k.path, env.paths)
    ensures Normals(Kept(ws, {}, env), env) == Normals(ws, env)
  {
    var kept := Kept(ws, {}, env);
    forall k | k in kept ensures k.projectId == ProjectId(k.path, env.paths) && Normal(k, env) in Normals(ws, env) {
      KeptFrom(ws, {}, env, k);
      var w :| w in ws && k == Canonical(w, env);
    }
    forall w | w in ws ensures Normal(w, env) in Normals(kept, env) {
      KeptCovers(ws, {}, env, w);
    }
  }

  lemma {:induction false} KeptUnique(ws: seq<Workspace>, seen: set<string>, env: Identity)
    ensures UniquePaths(Kept(ws, seen, env), env.paths)
  {
    if ws != [] {
      var n := Normal(ws[0], env);
      var rest := Kept(ws[1..], seen + {n}, env);
      KeptUnique(ws[1..], seen + {n}, env);
      forall j | 0 <= j < |rest| ensures Normal(rest[j], env) != n {
        KeptFrom(ws[1..], seen + {n}, env, rest[j]);
      }
    }
  }

  /** One entry per normalized path, under the id of that path; no path is lost. */
  lemma {:induction false} PlannedWorkspaces(ws: seq<Workspace>, defaultPath: Option<string>, now: string, env: Identity)
    ensures var planned := Planned(ws, defaultPath, now, env).workspaces;
      && UniquePaths(planned, env.paths)
      && (forall k :: k in planned ==> k.projectId == ProjectId(k.path, env.paths))
      && Normals(planned, env) ==
         Normals(ws, env) + (if defaultPath.Some? then {env.paths.normal(defaultPath.value)} else {})
  {
    var kept, added := Kept(ws, {}, env), Added(ws, defaultPath, now, env);
    var planned := kept + added;
    KeptMembers(ws, env);
    KeptUnique(ws, {}, env);
    assert forall k :: k in planned <==> k in kept || k in added;
    if added != [] {
      assert added[0] in planned;
      forall i | 0 <= i < |kept| ensures Normal(kept[i], env) != Normal(added[0], env) {
        assert kept[i] in kept;
        assert Normal(kept[i], env) in Normals(kept, env);
      }
    }
    PlannedNormals(ws, kept, added, defaultPath, now, env);
  }

  lemma {:induction false} PlannedNormals(
    ws: seq<Workspace>, kept: seq<Workspace>, added: seq<Workspace>, defaultPath: Option<string>, now: string, env: Identity)
    requires Normals(kept, env) == Normals(ws, env) && added == Added(ws, defaultPath, now, env)
    ensures Normals(kept + added, env) ==
            Normals(ws, env) + (if defaultPath.Some? then {env.paths.normal(defaultPath.value)} else {})
  {
    assert forall k :: k in kept + added <==> k in kept || k in added;
    assert Normals(kept + added, env) == Normals(kept, env) + Normals(added, env);
    if added != [] {
      assert added[0] in added && Normal(added[0], env) == env.paths.normal(defaultPath.value);
      assert Normals(added, env) == {Normal(added[0], env)};
    }
  }

  /** Project ids are unique if and only if the paths do not collide, which is what the plan checks. */
  lemma {:induction false} UniqueIdsIff(planned: seq<Workspace>, env: Identity)
    requires UniquePaths(planned, env.paths)
    requires forall k :: k in planned ==> k.projectId == ProjectId(k.path, env.paths)
    ensures UniqueIds(planned) <==> Separate(Normals(planned, env), env)
  {
    if UniqueIds(planned) {
      forall a, b | a in Normals(planned, env) && b in Normals(planned, env) && env.paths.idOf(a) == env.paths.idOf(b)
        ensures a == b
      {
        var v :| v in planned && Normal(v, env) == a;
        var w :| w in planned && Normal(w, env) == b;
        var i :| 0 <= i < |planned| && planned[i] == v;
        var j :| 0 <= j < |planned| && planned[j] == w;
        assert planned[i].projectId == planned[j].projectId;
      }
    }
    if Separate(Normals(planned, env), env) {
      forall i, j | 0 <= i < j < |planned| ensures planned[i].projectId != planned[j].projectId {
        assert planned[i] in planned && planned[j] in planned;
        assert Normal(planned[i], env) in Normals(planned, env) && Normal(planned[j], env) in Normals(planned, env);
      }
    }
  }

  // ---- References ----

  lemma {:induction false} CanonConcat(id: string, a: seq<Alias>, b: seq<Alias>)
    ensures Canon(id, a + b) == if Canon(id, a).Some? then Canon(id, a) else Canon(id, b)
  {
    if a == [] {
      assert a + b == b;
    } else {
      assert (a + b)[1..] == a[1..] + b;
      CanonConcat(id, a[1..], b);
    }
  }

  lemma {:induction false} CanonOfThree(id: string, w: Workspace, env: Identity)
    ensures var c := ProjectId(w.path, env.paths);
      Canon(id, AliasesOf(w, env)) ==
      if id == w.projectId || id == env.legacy(w.path) || id == c then Some(c) else None
  {
    var c := ProjectId(w.path, env.paths);
    var a := AliasesOf(w, env);
    assert a[1..] == [(env.legacy(w.path), c), (c, c)];
    assert a[1..][1..] == [(c, c)] && a[1..][1..][1..] == [];
    assert Canon(id, a[1..][1..]) == if id == c then Some(c) else None;
    assert Canon(id, a[1..]) == if id == env.legacy(w.path) || id == c then Some(c) else None;
  }

  lemma {:induction false} CanonTargets(id: string, ws: seq<Workspace>, env: Identity)
    ensures Canon(id, Aliases(ws, env)).Some? ==>
      exists w :: w in ws && Canon(id, Aliases(ws, env)).value == ProjectId(w.path, env.paths)
  {
    if ws != [] {
      CanonConcat(id, AliasesOf(ws[0], env), Aliases(ws[1..], env));
      CanonOfThree(id, ws[0], env);
      CanonTargets(id, ws[1..], env);
      assert ws[0] in ws;
    }
  }

  /** Every alias leads to a registered workspace. */
  lemma {:induction false} ResolvedRegistered(
    id: string, ws: seq<Workspace>, defaultPath: Option<string>, now: string, env: Identity)
    ensures var plan := Planned(ws, defaultPath, now, env);
      Canon(id, plan.aliases).Some? ==> Registered(plan.workspaces, Canon(id, plan.aliases).value)
  {
    var plan := Planned(ws, defaultPath, now, env);
    var added := Added(ws, defaultPath, now, env);
    CanonConcat(id, Aliases(ws, env), AddedAliases(added));
    CanonTargets(id, ws, env);
    if Canon(id, Aliases(ws, env)).Some? {
      var w :| w in ws && Canon(id, Aliases(ws, env)).value == ProjectId(w.path, env.paths);
      PathRegistered(w, ws, defaultPath, now, env);
    } else if Canon(id, plan.aliases).Some? {
      assert added[0] in plan.workspaces;
    }
  }

  lemma {:induction false} PathRegistered(
    w: Workspace, ws: seq<Workspace>, defaultPath: Option<string>, now: string, env: Identity)
    requires w in ws
    ensures Registered(Planned(ws, defaultPath, now, env).workspaces, ProjectId(w.path, env.paths))
  {
    var planned := Planned(ws, defaultPath, now, env).workspaces;
    PlannedWorkspaces(ws, defaultPath, now, env);
    assert Normal(w, env) in Normals(planned, env);
    var k :| k in planned && Normal(k, env) == Normal(w, env);
    assert k.projectId == ProjectId(w.path, env.paths);
  }

  // ---- Pins ----

  /** A task is pinned after the migration exactly if some old pin of it resolves to its workspace. */
  ghost predicate WasPinned(pins: seq<Pin>, key: (string, string), aliases: seq<Alias>) {
    exists p :: p in pins && Canon(p.projectId, aliases) == Some(key.0) && p.taskId == key.1
  }

  lemma {:induction false} PinsAre(pins: seq<Pin>, seen: set<(string, string)>, aliases: seq<Alias>)
    ensures forall m :: m in MigratedPins(pins, seen, aliases) ==>
      (m.projectId, m.taskId) !in seen && WasPinned(pins, (m.projectId, m.taskId), aliases)
    ensures DistinctPins(MigratedPins(pins, seen, aliases))
  {
    if pins != [] {
      var c := Canon(pins[0].projectId, aliases);
      var seen' := if c.None? then seen else seen + {(c.value, pins[0].taskId)};
      var rest := MigratedPins(pins[1..], seen', aliases);
      PinsAre(pins[1..], seen', aliases);
      assert pins[0] in pins;
      forall m | m in rest
        ensures (m.projectId, m.taskId) !in seen' && WasPinned(pins, (m.projectId, m.taskId), aliases)
      {
        var p :| p in pins[1..] && Canon(p.projectId, aliases) == Some(m.projectId) && p.taskId == m.taskId;
        assert p in pins;
      }
      assert forall j :: 0 <= j < |rest| ==> rest[j] in rest;
    }
  }

  lemma {:induction false} PinsSurvive(pins: seq<Pin>, seen: set<(string, string)>, aliases: seq<Alias>, key: (string, string))
    requires WasPinned(pins, key, aliases) && key !in seen
    ensures Pinned(MigratedPins(pins, seen, aliases), key.0, key.1)
  {
    var c := Canon(pins[0].projectId, aliases);
    var seen' := if c.None? then seen else seen + {(c.value, pins[0].taskId)};
    var all, rest := MigratedPins(pins, seen, aliases), MigratedPins(pins[1..], seen', aliases);
    if c == Some(key.0) && pins[0].taskId == key.1 {
      assert all[0] in all;
    } else {
      var p :| p in pins && Canon(p.projectId, aliases) == Some(key.0) && p.taskId == key.1;
      assert p in pins[1..];
      PinsSurvive(pins[1..], seen', aliases, key);
      assert forall m :: m in rest ==> m in all;
    }
  }

  lemma {:induction false} OrderKept(pins: seq<Pin>, seen: set<(string, string)>, aliases: seq<Alias>, m: Pin)
    requires m in MigratedPins(pins, seen, aliases)
    ensures exists p :: p in pins && p.order == m.order
  {
    var c := Canon(pins[0].projectId, aliases);
    var seen' := if c.None? then seen else seen + {(c.value, pins[0].taskId)};
    if m in MigratedPins(pins[1..], seen', aliases) {
      OrderKept(pins[1..], seen', aliases, m);
      var p :| p in pins[1..] && p.order == m.order;
      assert p in pins;
    } else {
      assert pins[0] in pins;
    }
  }

  lemma {:induction false} PinsIncreasing(pins: seq<Pin>, seen: set<(string, string)>, aliases: seq<Alias>)
    requires Increasing(pins)
    ensures Increasing(MigratedPins(pins, seen, aliases))
  {
    if pins != [] {
      var c := Canon(pins[0].projectId, aliases);
      var seen' := if c.None? then seen else seen + {(c.value, pins[0].taskId)};
      var rest := MigratedPins(pins[1..], seen', aliases);
      PinsIncreasing(pins[1..], seen', aliases);
      forall j | 0 <= j < |rest| ensures pins[0].order < rest[j].order {
        OrderKept(pins[1..], seen', aliases, rest[j]);
        var p :| p in pins[1..] && p.order == rest[j].order;
        var k :| 0 <= k < |pins[1..]| && pins[1..][k] == p;
        assert pins[k + 1] == p;
      }
    }
  }

  // ---- Run modes ----

  lemma {:induction false} InsertedKeys<R>(ids: seq<string>, entries: map<string, R>, aliases: seq<Alias>, c: string)
    requires forall id :: id in ids ==> id in entries
    ensures c in Inserted(ids, entries, aliases) <==> exists id :: id in ids && Canon(id, aliases) == Some(c)
    ensures c in Inserted(ids, entries, aliases) ==>
      exists id :: id in ids && Canon(id, aliases) == Some(c) && Inserted(ids, entries, aliases)[c] == entries[id]
  {
    if ids != [] {
      InsertedKeys(ids[1..], entries, aliases, c);
      assert ids[0] in ids;
      assert forall id :: id in ids <==> id == ids[0] || id in ids[1..];
    }
  }

  lemma {:induction false} InsertedConcat<R>(a: seq<string>, b: seq<string>, entries: map<string, R>, aliases: seq<Alias>)
    requires (forall id :: id in a ==> id in entries) && (forall id :: id in b ==> id in entries)
    ensures Inserted(a + b, entries, aliases) == Inserted(a, entries, aliases) + Inserted(b, entries, aliases)
  {
    if a == [] {
      assert a + b == b;
      assert map[] + Inserted(b, entries, aliases) == Inserted(b, entries, aliases);
    } else {
      assert (a + b)[1..] == a[1..] + b && (a + b)[0] == a[0];
      assert a[0] in a;
      InsertedConcat(a[1..], b, entries, aliases);
      var c := Canon(a[0], aliases);
      var first := if c.None? then map[] else map[c.value := entries[a[0]]];
      PlusAssociative(first, Inserted(a[1..], entries, aliases), Inserted(b, entries, aliases));
    }
  }

  /**
   Whatever the order in which the old run modes are visited: an id has a run mode exactly if some old id
   with a run mode resolves to it, and an entry under a canonical id is preferred to entries under aliases.
   */
  lemma {:induction false} ModesResolved<R>(
    order: seq<string>, entries: map<string, R>, canonical: set<string>, aliases: seq<Alias>, c: string)
    requires forall id :: id in order <==> id in entries
    ensures var modes := MigratedModes(order, entries, canonical, aliases);
      && (c in modes <==> exists id :: id in entries && Canon(id, aliases) == Some(c))
      && (c in modes ==>
            exists id :: id in entries && Canon(id, aliases) == Some(c) && modes[c] == entries[id] &&
              (id in canonical || forall other :: other in entries && Canon(other, aliases) == Some(c) ==> other !in canonical))
  {
    var plain, preferred := Preferring(order, canonical, false), Preferring(order, canonical, true);
    InsertedConcat(plain, preferred, entries, aliases);
    InsertedKeys(plain, entries, aliases, c);
    InsertedKeys(preferred, entries, aliases, c);
    assert forall id :: id in entries <==> id in plain || id in preferred;
  }

  /** A run mode that is already under its canonical id wins over every alias, if only itself resolves to it. */
  lemma {:induction false} CanonicalModeWins<R>(
    order: seq<string>, entries: map<string, R>, canonical: set<string>, aliases: seq<Alias>, c: string)
    requires forall id :: id in order <==> id in entries
    requires c in canonical && c in entries && Canon(c, aliases) == Some(c)
    requires forall other :: other in canonical && other in entries && Canon(other, aliases) == Some(c) ==> other == c
    ensures var modes := MigratedModes(order, entries, canonical, aliases); c in modes && modes[c] == entries[c]
  {
    ModesResolved(order, entries, canonical, aliases, c);
  }

  // ---- The migrated registry ----

  /** References of any kind name registered workspaces, and a last workspace is recorded exactly if there is one. */
  ghost predicate ReferencesSound<R>(s: State<R>) {
    && PinsRegistered(s.pins, s.workspaces)
    && (forall id :: id in s.runModes ==> Registered(s.workspaces, id))
    && (s.last.Some? ==> Registered(s.workspaces, s.last.value))
    && (s.last.Some? <==> s.workspaces != [])
  }

  lemma {:induction false} AliasesRegistered(ws: seq<Workspace>, defaultPath: Option<string>, now: string, env: Identity)
    ensures var plan := Planned(ws, defaultPath, now, env);
      forall id :: Canon(id, plan.aliases).Some? ==> Registered(plan.workspaces, Canon(id, plan.aliases).value)
  {
    var plan := Planned(ws, defaultPath, now, env);
    forall id | Canon(id, plan.aliases).Some? ensures Registered(plan.workspaces, Canon(id, plan.aliases).value) {
      ResolvedRegistered(id, ws, defaultPath, now, env);
    }
  }

  lemma {:induction false} PinsRegisteredAfter(pins: seq<Pin>, aliases: seq<Alias>, ws: seq<Workspace>)
    requires forall id :: Canon(id, aliases).Some? ==> Registered(ws, Canon(id, aliases).value)
    ensures PinsRegistered(MigratedPins(pins, {}, aliases), ws) && DistinctPins(MigratedPins(pins, {}, aliases))
  {
    PinsAre(pins, {}, aliases);
  }

  lemma {:induction false} ModesRegisteredAfter<R>(
    order: seq<string>, entries: map<string, R>, aliases: seq<Alias>, ws: seq<Workspace>)
    requires forall id :: id in order <==> id in entries
    requires forall id :: Canon(id, aliases).Some? ==> Registered(ws, Canon(id, aliases).value)
    ensures forall c :: c in MigratedModes(order, entries, Ids(ws), aliases) ==> Registered(ws, c)
  {
    forall c | c in MigratedModes(order, entries, Ids(ws), aliases) ensures Registered(ws, c) {
      ModesResolved(order, entries, Ids(ws), aliases, c);
    }
  }

  lemma {:induction false} LastRegisteredAfter(last: Option<string>, aliases: seq<Alias>, ws: seq<Workspace>)
    requires forall id :: Canon(id, aliases).Some? ==> Registered(ws, Canon(id, aliases).value)
    ensures var resolved := Resolved(last, aliases);
      var after := if resolved.Some? then resolved else FirstId(ws);
      (after.Some? ==> Registered(ws, after.value)) && (after.Some? <==> ws != [])
  {
    if ws != [] {
      assert ws[0] in ws;
    }
  }

  lemma {:induction false} MigratedReferences<R>(
    s: State<R>, defaultPath: Option<string>, now: string, order: seq<string>, env: Identity)
    requires forall id :: id in order <==> id in s.runModes
    ensures ReferencesSound(Migrated(s, defaultPath, now, order, env))
    ensures DistinctPins(Migrated(s, defaultPath, now, order, env).pins)
  {
    var plan := Planned(s.workspaces, defaultPath, now, env);
    AliasesRegistered(s.workspaces, defaultPath, now, env);
    PinsRegisteredAfter(s.pins, plan.aliases, plan.workspaces);
    ModesRegisteredAfter(order, s.runModes, plan.aliases, plan.workspaces);
    LastRegisteredAfter(s.last, plan.aliases, plan.workspaces);
  }

  /**
   Any old state becomes a registry with one entry per path, sound references and no duplicate pins. Its
   ids are unique exactly if the paths do not collide; pin numbers increase if they did before.
   */
  lemma {:induction false} MigratedSound<R>(
    s: State<R>, defaultPath: Option<string>, now: string, order: seq<string>, env: Identity)
    requires forall id :: id in order <==> id in s.runModes
    ensures var m := Migrated(s, defaultPath, now, order, env);
      && UniquePaths(m.workspaces, env.paths) && ReferencesSound(m) && DistinctPins(m.pins)
      && (UniqueIds(m.workspaces) <==> Separate(Normals(m.workspaces, env), env))
      && (Increasing(s.pins) && Separate(Normals(m.workspaces, env), env) ==> Sound(m, env.paths))
  {
    var m := Migrated(s, defaultPath, now, order, env);
    PlannedWorkspaces(s.workspaces, defaultPath, now, env);
    UniqueIdsIff(m.workspaces, env);
    MigratedReferences(s, defaultPath, now, order, env);
    if Increasing(s.pins) {
      PinsIncreasing(s.pins, {}, Planned(s.workspaces, defaultPath, now, env).aliases);
    }
  }

  /** The normal forms of the planned paths are those of the registered paths and of the others. */
  lemma {:induction false} NormalsOfConcat(a: seq<string>, b: seq<string>, env: Identity)
    ensures NormalsOf(a + b, env) == NormalsOf(a, env) + NormalsOf(b, env)
  {
    assert forall p :: p in a + b <==> p in a || p in b;
  }

  lemma {:induction false} NormalsOfPaths(ws: seq<Workspace>, env: Identity)
    ensures NormalsOf(seq(|ws|, i requires 0 <= i < |ws| => ws[i].path), env) == Normals(ws, env)
  {
    var paths := seq(|ws|, i requires 0 <= i < |ws| => ws[i].path);
    forall w | w in ws ensures w.path in paths {
      var i :| 0 <= i < |ws| && ws[i] == w;
      assert paths[i] == w.path;
    }
    forall p | p in paths ensures exists w :: w in ws && w.path == p {
      var i :| 0 <= i < |paths| && paths[i] == p;
      assert ws[i] in ws;
    }
  }

  lemma {:induction false} PlanCovers(
    ws: seq<Workspace>, recent: seq<string>, defaultPath: Option<string>, discovered: seq<string>, now: string, env: Identity)
    ensures NormalsOf(PlanPaths(ws, recent, defaultPath, discovered), env) ==
      Normals(Planned(ws, defaultPath, now, env).workspaces, env) + NormalsOf(recent, env) + NormalsOf(discovered, env)
  {
    var paths := seq(|ws|, i requires 0 <= i < |ws| => ws[i].path);
    var extra := if defaultPath.Some? then [defaultPath.value] else [];
    NormalsOfPaths(ws, env);
    NormalsOfConcat(paths, recent, env);
    NormalsOfConcat(paths + recent, extra, env);
    NormalsOfConcat(paths + recent + extra, discovered, env);
    PlannedWorkspaces(ws, defaultPath, now, env);
    NormalsOfOptional(defaultPath, env);
    Exchange(Normals(ws, env), NormalsOf(recent, env), NormalsOf(extra, env), NormalsOf(discovered, env));
  }

  lemma {:induction false} NormalsOfOptional(path: Option<string>, env: Identity)
    ensures NormalsOf(if path.Some? then [path.value] else [], env) ==
      if path.Some? then {env.paths.normal(path.value)} else {}
  {
  }

  lemma {:induction false} Exchange(a: set<string>, b: set<string>, c: set<string>, d: set<string>)
    ensures a + b + c + d == a + c + b + d
  {
  }

  /**
   The check of the plan is what makes the ids unique: the state it lets through, whatever it was, becomes a
   sound registry exactly if the migrated pin numbers increase, which they do if they did before. If only
   registered paths and the default path are planned, the check refuses no state that would be sound.
   */
  lemma {:induction false} CheckedMigrationSound<R>(
    plan: seq<PlanItem>, s: State<R>, recent: seq<string>, defaultPath: Option<string>, discovered: seq<string>,
    now: string, order: seq<string>, env: Identity)
    requires forall id :: id in order <==> id in s.runModes
    requires IsPlan(plan, NormalsOf(PlanPaths(s.workspaces, recent, defaultPath, discovered), env), env)
    ensures var m := Migrated(s, defaultPath, now, order, env);
      && (NoCollision(plan) ==>
            UniqueIds(m.workspaces) && (Sound(m, env.paths) <==> Increasing(m.pins)) &&
            (Increasing(s.pins) ==> Sound(m, env.paths)))
      && (recent == [] && discovered == [] ==> (UniqueIds(m.workspaces) <==> NoCollision(plan)))
  {
    PlanSeparates(plan, NormalsOf(PlanPaths(s.workspaces, recent, defaultPath, discovered), env), env);
    PlanCovers(s.workspaces, recent, defaultPath, discovered, now, env);
    MigratedSound(s, defaultPath, now, order, env);
  }

  // ---- Running it again ----

  /** The legacy id of some path is the given id, and no workspace up to there has that id. */
  ghost predicate Shadowed(ws: seq<Workspace>, id: string, env: Identity) {
    exists i :: 0 <= i < |ws| && env.legacy(ws[i].path) == id && forall j :: 0 <= j <= i ==> ws[j].projectId != id
  }

  ghost predicate Referenced<R>(s: State<R>, id: string) {
    id in s.runModes || s.last == Some(id) || exists p :: p in s.pins && p.projectId == id
  }

  ghost predicate Canonicalised(ws: seq<Workspace>, env: Identity) {
    forall w :: w in ws ==> w.projectId == ProjectId(w.path, env.paths)
  }

  /** Workspaces as the migration leaves them. */
  ghost predicate Settled(ws: seq<Workspace>, env: Identity) {
    UniquePaths(ws, env.paths) && Canonicalised(ws, env)
  }

  lemma {:induction false} KeptAll(ws: seq<Workspace>, seen: set<string>, env: Identity)
    requires Settled(ws, env) && forall w :: w in ws ==> Normal(w, env) !in seen
    ensures Kept(ws, seen, env) == ws
  {
    if ws != [] {
      assert ws[0] in ws;
      var n := Normal(ws[0], env);
      forall w | w in ws[1..] ensures Normal(w, env) !in seen + {n} {
        var k :| 0 <= k < |ws[1..]| && ws[1..][k] == w;
        assert ws[k + 1] == w;
      }
      KeptAll(ws[1..], seen + {n}, env);
    }
  }

  /** The place of the first workspace with the id. */
  function First(ws: seq<Workspace>, id: string): (i: nat)
    requires Registered(ws, id)
    ensures i < |ws| && ws[i].projectId == id && forall j :: 0 <= j < i ==> ws[j].projectId != id
  {
    if ws[0].projectId == id then 0 else 1 + First(ws[1..], id)
  }

  lemma {:induction false} CanonStep(id: string, ws: seq<Workspace>, env: Identity)
    requires Canonicalised(ws, env) && ws != []
    ensures Canonicalised(ws[1..], env)
    ensures Canon(id, Aliases(ws, env)) ==
      if id == ws[0].projectId || id == env.legacy(ws[0].path) then Some(ws[0].projectId) else Canon(id, Aliases(ws[1..], env))
  {
    assert ws[0] in ws && forall w :: w in ws[1..] ==> w in ws;
    CanonConcat(id, AliasesOf(ws[0], env), Aliases(ws[1..], env));
    CanonOfThree(id, ws[0], env);
  }

  lemma {:induction false} ShadowedStep(id: string, ws: seq<Workspace>, env: Identity)
    requires ws != [] && ws[0].projectId != id && env.legacy(ws[0].path) != id
    ensures Shadowed(ws, id, env) <==> Shadowed(ws[1..], id, env)
  {
    var rest := ws[1..];
    if Shadowed(ws, id, env) {
      var i :| 0 <= i < |ws| && env.legacy(ws[i].path) == id && forall j :: 0 <= j <= i ==> ws[j].projectId != id;
      assert env.legacy(rest[i - 1].path) == id;
      assert forall j :: 0 <= j <= i - 1 ==> rest[j] == ws[j + 1];
    }
    if Shadowed(rest, id, env) {
      var i :| 0 <= i < |rest| && env.legacy(rest[i].path) == id && forall j :: 0 <= j <= i ==> rest[j].projectId != id;
      assert env.legacy(ws[i + 1].path) == id;
      assert forall j :: 0 < j <= i + 1 ==> ws[j] == rest[j - 1];
    }
  }

  /** A registered id resolves, and to itself exactly if it is not shadowed. */
  lemma {:induction false} CanonOfRegistered(id: string, ws: seq<Workspace>, env: Identity)
    requires Registered(ws, id) && Canonicalised(ws, env)
    ensures Canon(id, Aliases(ws, env)).Some?
    ensures Canon(id, Aliases(ws, env)) == Some(id) <==> !Shadowed(ws, id, env)
  {
    CanonStep(id, ws, env);
    if ws[0].projectId != id {
      if env.legacy(ws[0].path) == id {
        assert Shadowed(ws, id, env);
      } else {
        var w :| w in ws && w.projectId == id;
        assert w in ws[1..];
        CanonOfRegistered(id, ws[1..], env);
        ShadowedStep(id, ws, env);
      }
    }
  }

  /** Resolving an id to another one leads to a workspace nearer to the front. */
  lemma {:induction false} CanonComesEarlier(id: string, ws: seq<Workspace>, env: Identity)
    requires Registered(ws, id) && Canonicalised(ws, env)
    ensures var c := Canon(id, Aliases(ws, env));
      c.Some? && c != Some(id) ==> Registered(ws, c.value) && First(ws, c.value) < First(ws, id)
  {
    CanonStep(id, ws, env);
    assert ws[0] in ws;
    if ws[0].projectId != id && env.legacy(ws[0].path) != id {
      var w :| w in ws && w.projectId == id;
      assert w in ws[1..];
      CanonComesEarlier(id, ws[1..], env);
      var c := Canon(id, Aliases(ws, env));
      if c.Some? && c != Some(id) {
        var v :| v in ws[1..] && v.projectId == c.value;
        assert v in ws;
      }
    }
  }

  lemma {:induction false} PinsStay(pins: seq<Pin>, seen: set<(string, string)>, aliases: seq<Alias>)
    requires DistinctPins(pins)
    requires forall p :: p in pins ==> Canon(p.projectId, aliases) == Some(p.projectId) && (p.projectId, p.taskId) !in seen
    ensures MigratedPins(pins, seen, aliases) == pins
  {
    if pins != [] {
      assert pins[0] in pins;
      var key := (pins[0].projectId, pins[0].taskId);
      forall p | p in pins[1..] ensures (p.projectId, p.taskId) !in seen + {key} {
        var k :| 0 <= k < |pins[1..]| && pins[1..][k] == p;
        assert pins[k + 1] == p && !SameTask(pins[0], pins[k + 1]);
      }
      PinsStay(pins[1..], seen + {key}, aliases);
    }
  }

  lemma {:induction false} ModesStay<R>(order: seq<string>, entries: map<string, R>, canonical: set<string>, aliases: seq<Alias>)
    requires forall id :: id in order <==> id in entries
    requires forall id :: id in entries ==> Canon(id, aliases) == Some(id)
    ensures MigratedModes(order, entries, canonical, aliases) == entries
  {
    var modes := MigratedModes(order, entries, canonical, aliases);
    forall c ensures c in modes <==> c in entries {
      ModesResolved(order, entries, canonical, aliases, c);
    }
    forall c | c in modes ensures modes[c] == entries[c] {
      ModesResolved(order, entries, canonical, aliases, c);
    }
  }

  lemma {:induction false} PinsShorter(pins: seq<Pin>, seen: set<(string, string)>, aliases: seq<Alias>)
    ensures |MigratedPins(pins, seen, aliases)| <= |pins|
  {
    if pins != [] {
      var c := Canon(pins[0].projectId, aliases);
      PinsShorter(pins[1..], if c.None? then seen else seen + {(c.value, pins[0].taskId)}, aliases);
    }
  }

  /** Pins that stay as they are name ids that resolve to themselves. */
  lemma {:induction false} StayingPins(pins: seq<Pin>, seen: set<(string, string)>, aliases: seq<Alias>, p: Pin)
    requires MigratedPins(pins, seen, aliases) == pins && p in pins
    ensures Canon(p.projectId, aliases) == Some(p.projectId)
  {
    var c := Canon(pins[0].projectId, aliases);
    var seen' := if c.None? then seen else seen + {(c.value, pins[0].taskId)};
    PinsShorter(pins[1..], seen', aliases);
    assert pins[0] == pins[0].(projectId := c.value);
    assert MigratedPins(pins[1..], seen', aliases) == pins[1..];
    if p != pins[0] {
      assert p in pins[1..];
      StayingPins(pins[1..], seen', aliases, p);
    }
  }

  /**
   Run modes that stay as they are have keys that resolve to themselves: each key is what some key resolves
   to, and a key that resolved to another one would be preceded by it, without end.
   */
  lemma {:induction false} StayingModes<R>(
    order: seq<string>, entries: map<string, R>, ws: seq<Workspace>, env: Identity, id: string)
    requires (forall k :: k in order <==> k in entries) && Canonicalised(ws, env)
    requires forall k :: k in entries ==> Registered(ws, k)
    requires MigratedModes(order, entries, Ids(ws), Aliases(ws, env)) == entries && id in entries
    ensures Canon(id, Aliases(ws, env)) == Some(id)
    decreases |ws| - First(ws, id)
  {
    ModesResolved(order, entries, Ids(ws), Aliases(ws, env), id);
    var other :| other in entries && Canon(other, Aliases(ws, env)) == Some(id);
    if other != id {
      CanonComesEarlier(other, ws, env);
      StayingModes(order, entries, ws, env, other);
    }
  }

  /**
   Without the version guard, the migration run on its own result, with the same default workspace and any
   visiting order, changes nothing exactly if no id that is referenced is shadowed by a legacy id.
   */
  lemma {:induction false} MigrationSettlesIff<R>(
    s: State<R>, defaultPath: Option<string>, now: string, order: seq<string>, later: string, again: seq<string>, env: Identity)
    requires forall id :: id in order <==> id in s.runModes
    requires forall id :: id in again <==> id in Migrated(s, defaultPath, now, order, env).runModes
    ensures var m := Migrated(s, defaultPath, now, order, env);
      Migrated(m, defaultPath, later, again, env) == m <==>
      forall id :: Referenced(m, id) ==> !Shadowed(m.workspaces, id, env)
  {
    var m := Migrated(s, defaultPath, now, order, env);
    PlannedWorkspaces(s.workspaces, defaultPath, now, env);
    MigratedReferences(s, defaultPath, now, order, env);
    SettledPlan(m.workspaces, defaultPath, later, env);
    SettledStays(m, defaultPath, later, again, env);
    if Migrated(m, defaultPath, later, again, env) == m {
      forall id | Referenced(m, id) ensures !Shadowed(m.workspaces, id, env) {
        StayingReference(m, defaultPath, later, again, env, id);
      }
    }
  }

  lemma {:induction false} SettledPlan(ws: seq<Workspace>, defaultPath: Option<string>, later: string, env: Identity)
    requires Settled(ws, env)
    requires defaultPath.Some? ==> env.paths.normal(defaultPath.value) in Normals(ws, env)
    ensures Planned(ws, defaultPath, later, env) == Plan(ws, Aliases(ws, env))
  {
    KeptAll(ws, {}, env);
    assert ws + [] == ws && Aliases(ws, env) + [] == Aliases(ws, env);
  }

  lemma {:induction false} StayingReference<R>(
    m: State<R>, defaultPath: Option<string>, later: string, again: seq<string>, env: Identity, id: string)
    requires (forall k :: k in again <==> k in m.runModes) && Settled(m.workspaces, env) && ReferencesSound(m)
    requires Planned(m.workspaces, defaultPath, later, env) == Plan(m.workspaces, Aliases(m.workspaces, env))
    requires Migrated(m, defaultPath, later, again, env) == m && Referenced(m, id)
    ensures !Shadowed(m.workspaces, id, env)
  {
    var aliases := Aliases(m.workspaces, env);
    CanonOfRegistered(id, m.workspaces, env);
    if id in m.runModes {
      StayingModes(again, m.runModes, m.workspaces, env, id);
    } else if exists p :: p in m.pins && p.projectId == id {
      var p :| p in m.pins && p.projectId == id;
      StayingPins(m.pins, {}, aliases, p);
    }
  }

  lemma {:induction false} SettledStays<R>(
    m: State<R>, defaultPath: Option<string>, later: string, again: seq<string>, env: Identity)
    requires m.version == CURRENT_VERSION && Settled(m.workspaces, env) && ReferencesSound(m) && DistinctPins(m.pins)
    requires Planned(m.workspaces, defaultPath, later, env) == Plan(m.workspaces, Aliases(m.workspaces, env))
    requires forall id :: id in again <==> id in m.runModes
    ensures (forall id :: Referenced(m, id) ==> !Shadowed(m.workspaces, id, env)) ==>
      Migrated(m, defaultPath, later, again, env) == m
  {
    if forall id :: Referenced(m, id) ==> !Shadowed(m.workspaces, id, env) {
      var aliases := Aliases(m.workspaces, env);
      forall id | Referenced(m, id) ensures Canon(id, aliases) == Some(id) {
        CanonOfRegistered(id, m.workspaces, env);
      }
      assert forall p :: p in m.pins ==> Referenced(m, p.projectId);
      PinsStay(m.pins, {}, aliases);
      ModesStay(again, m.runModes, Ids(m.workspaces), aliases);
    }
  }

  /** Paths are their own ids; the legacy id of "a" is the id of "b". */
  function Clashing(): Identity {
    Identity(Paths(p => p, p => p, p => None), p => if p == "a" then "b" else "legacy")
  }

  /** A second migration moves the last workspace from one registered workspace to another. */
  lemma {:induction false} ClashMovesLast()
    ensures var before: State<int> := State(1, [Workspace("a", "a", "A", ""), Workspace("old", "b", "B", "")], [], map[], Some("old"));
      var m := Migrated(before, None, "", [], Clashing());
      m.last == Some("b") && Migrated(m, None, "", [], Clashing()).last == Some("a")
  {
    var a, b := Workspace("a", "a", "A", ""), Workspace("b", "b", "B", "");
    var start := [a, Workspace("old", "b", "B", "")];
    ClashWorkspaces(start);
    ClashWorkspaces([a, b]);
    ClashAliases("old", start);
    ClashAliases("b", [a, b]);
  }

  lemma {:induction false} ClashWorkspaces(ws: seq<Workspace>)
    requires |ws| == 2 && ws[0].path == "a" && ws[1].path == "b"
    ensures Kept(ws, {}, Clashing()) + [] == [ws[0].(projectId := "a"), ws[1].(projectId := "b")]
  {
    assert ws[1..] == [ws[1]] && ws[1..][1..] == [];
    assert Kept(ws[1..], {} + {"a"}, Clashing()) == [Canonical(ws[1], Clashing())] + [];
  }

  lemma {:induction false} ClashAliases(id: string, ws: seq<Workspace>)
    requires |ws| == 2
    ensures Canon(id, Aliases(ws, Clashing()) + []) ==
      var first := Canon(id, AliasesOf(ws[0], Clashing()));
      if first.Some? then first else Canon(id, AliasesOf(ws[1], Clashing()))
  {
    var env := Clashing();
    assert ws[1..][1..] == [];
    assert Aliases(ws[1..], env) == AliasesOf(ws[1], env) + [];
    assert Aliases(ws, env) + [] == AliasesOf(ws[0], env) + AliasesOf(ws[1], env);
    CanonConcat(id, AliasesOf(ws[0], env), AliasesOf(ws[1], env));
    CanonOfThree(id, ws[0], env);
    CanonOfThree(id, ws[1], env);
  }
}
