/**
 What the identity migration leaves of every workspace, pin and reference, said about the old lists.
 */
module IdentityEffects {
  import opened Wrappers
  import opened Registry
  import opened IdentityMigration
  import opened IdentityTheorems

  ghost predicate Ascending(positions: seq<nat>) {
    forall i, j :: 0 <= i < j < |positions| ==> positions[i] < positions[j]
  }

  /** The positions in a list whose head counts once (`d == 1`) or not (`d == 0`), from those in its tail. */
  function Placed(d: nat, rest: seq<nat>): (r: seq<nat>)
    requires d <= 1
    ensures |r| == d + |rest| && (d == 1 ==> r[0] == 0)
    ensures forall k :: d <= k < |r| ==> r[k] == rest[k - d] + 1
  {
    (if d == 1 then [0] else []) + seq(|rest|, k requires 0 <= k < |rest| => rest[k] + 1)
  }

  lemma {:induction false} InPlaced(d: nat, rest: seq<nat>, i: nat)
    requires d <= 1
    ensures i in Placed(d, rest) <==> if i == 0 then d == 1 else i - 1 in rest
  {
    var r := Placed(d, rest);
    if i > 0 && i - 1 in rest {
      var k :| 0 <= k < |rest| && rest[k] == i - 1;
      assert r[d + k] == i;
    }
  }

  lemma {:induction false} PlacedAscending(d: nat, rest: seq<nat>)
    requires d <= 1 && Ascending(rest)
    ensures Ascending(Placed(d, rest))
  {
  }

  // ---- Workspaces ----

  /** Entry `i` is the first at its normalized path, and the path is not one of those seen before. */
  ghost predicate FirstAtPath(ws: seq<Workspace>, seen: set<string>, env: Identity, i: nat) {
    && i < |ws| && env.paths.normal(ws[i].path) !in seen
    && forall j :: 0 <= j < i ==> env.paths.normal(ws[j].path) != env.paths.normal(ws[i].path)
  }

  /** The positions of the first entries at their paths. */
  ghost predicate FirstOnes(ws: seq<Workspace>, seen: set<string>, env: Identity, positions: seq<nat>) {
    Ascending(positions) && forall i: nat :: FirstAtPath(ws, seen, env, i) <==> i in positions
  }

  /** Entry `i` under its new id, and otherwise as it was. */
  predicate KeptFrom(ws: seq<Workspace>, env: Identity, w: Workspace, i: nat) {
    i < |ws| && w == ws[i].(projectId := env.paths.idOf(env.paths.normal(ws[i].path)))
  }

  /** The kept entries are the first ones at their paths, in their order, with everything but the id as it was. */
  ghost predicate KeepsFirst(ws: seq<Workspace>, seen: set<string>, env: Identity, kept: seq<Workspace>, positions: seq<nat>) {
    && FirstOnes(ws, seen, env, positions)
    && |positions| == |kept| && forall k :: 0 <= k < |kept| ==> KeptFrom(ws, env, kept[k], positions[k])
  }

  lemma {:induction false} FirstStep(ws: seq<Workspace>, seen: set<string>, env: Identity, i: nat)
    requires ws != []
    ensures FirstAtPath(ws, seen, env, i) <==>
      if i == 0 then env.paths.normal(ws[0].path) !in seen
      else FirstAtPath(ws[1..], seen + {env.paths.normal(ws[0].path)}, env, i - 1)
  {
    if i > 0 {
      assert forall j :: 0 < j < |ws| ==> ws[j] == ws[1..][j - 1];
      assert forall j :: 0 <= j < |ws[1..]| ==> ws[1..][j] == ws[j + 1];
    }
  }

  lemma {:induction false} FirstOnesStep(ws: seq<Workspace>, seen: set<string>, env: Identity, d: nat, rest: seq<nat>)
    requires ws != [] && FirstOnes(ws[1..], seen + {env.paths.normal(ws[0].path)}, env, rest)
    requires d == if env.paths.normal(ws[0].path) in seen then 0 else 1
    ensures FirstOnes(ws, seen, env, Placed(d, rest))
  {
    PlacedAscending(d, rest);
    forall i: nat ensures FirstAtPath(ws, seen, env, i) <==> i in Placed(d, rest) {
      FirstStep(ws, seen, env, i);
      InPlaced(d, rest, i);
    }
  }

  lemma {:induction false} KeptIsFirst(ws: seq<Workspace>, seen: set<string>, env: Identity) returns (positions: seq<nat>)
    ensures KeepsFirst(ws, seen, env, Kept(ws, seen, env), positions)
  {
    positions := [];
    if ws != [] {
      var n := env.paths.normal(ws[0].path);
      var tail := Kept(ws[1..], seen + {n}, env);
      var rest := KeptIsFirst(ws[1..], seen + {n}, env);
      var kept, d := Kept(ws, seen, env), if n in seen then 0 else 1;
      FirstOnesStep(ws, seen, env, d, rest);
      positions := Placed(d, rest);
      KeptHead(ws, seen, env);
      forall k | 0 <= k < |kept| ensures KeptFrom(ws, env, kept[k], positions[k]) {
        if k >= d {
          assert KeptFrom(ws[1..], env, tail[k - d], rest[k - d]);
        }
      }
    }
  }

  lemma {:induction false} KeptHead(ws: seq<Workspace>, seen: set<string>, env: Identity)
    requires ws != []
    ensures var n := env.paths.normal(ws[0].path); var tail := Kept(ws[1..], seen + {n}, env);
      if n in seen then Kept(ws, seen, env) == tail
      else Kept(ws, seen, env) == [ws[0].(projectId := env.paths.idOf(n))] + tail
  {
    var n := env.paths.normal(ws[0].path);
    if n in seen {
      assert seen + {n} == seen;
    }
  }

  /** The migrated workspaces: the first entry at each path, and the default workspace if it is at none of them. */
  lemma {:induction false} WorkspacesAfter<R>(
    s: State<R>, defaultPath: Option<string>, now: string, order: seq<string>, env: Identity)
    returns (positions: seq<nat>, kept: seq<Workspace>)
    requires forall id :: id in order ==> id in s.runModes
    ensures KeepsFirst(s.workspaces, {}, env, kept, positions)
    ensures Migrated(s, defaultPath, now, order, env).workspaces == kept +
      if defaultPath.Some? && forall w :: w in s.workspaces ==> env.paths.normal(w.path) != env.paths.normal(defaultPath.value)
      then [Workspace(env.paths.idOf(env.paths.normal(defaultPath.value)), defaultPath.value,
                      env.paths.fileName(defaultPath.value).GetOr("Workspace"), now)]
      else []
    ensures Migrated(s, defaultPath, now, order, env).version == 2
  {
    positions := KeptIsFirst(s.workspaces, {}, env);
    kept := Kept(s.workspaces, {}, env);
  }

  // ---- How ids resolve ----

  /** The ids by which a workspace was known: its recorded one, that of earlier versions, and the new one. */
  predicate KnownAs(w: Workspace, id: string, env: Identity) {
    id == w.projectId || id == env.legacy(w.path) || id == env.paths.idOf(env.paths.normal(w.path))
  }

  /** Workspace `i` is the first that was known by the id. */
  ghost predicate FirstKnown(ws: seq<Workspace>, id: string, env: Identity, i: nat) {
    i < |ws| && KnownAs(ws[i], id, env) && forall j :: 0 <= j < i ==> !KnownAs(ws[j], id, env)
  }

  lemma {:induction false} CanonIsFirst(ws: seq<Workspace>, id: string, env: Identity)
    ensures (forall w :: w in ws ==> !KnownAs(w, id, env)) <==> Canon(id, Aliases(ws, env)).None?
    ensures forall i: nat :: FirstKnown(ws, id, env, i) ==>
      Canon(id, Aliases(ws, env)) == Some(env.paths.idOf(env.paths.normal(ws[i].path)))
  {
    if ws != [] {
      CanonConcat(id, AliasesOf(ws[0], env), Aliases(ws[1..], env));
      CanonOfThree(id, ws[0], env);
      CanonIsFirst(ws[1..], id, env);
      assert forall w :: w in ws <==> w == ws[0] || w in ws[1..];
      assert (forall w :: w in ws ==> !KnownAs(w, id, env)) <==>
        !KnownAs(ws[0], id, env) && forall w :: w in ws[1..] ==> !KnownAs(w, id, env);
      forall i: nat | FirstKnown(ws, id, env, i)
        ensures Canon(id, Aliases(ws, env)) == Some(env.paths.idOf(env.paths.normal(ws[i].path)))
      {
        if i > 0 {
          assert !KnownAs(ws[0], id, env);
          assert forall j :: 0 <= j < |ws[1..]| ==> ws[1..][j] == ws[j + 1];
          assert FirstKnown(ws[1..], id, env, i - 1);
        }
      }
    }
  }

  /**
   An id resolves to the new id of the first workspace that was known by it. If there is none, only the new id
   of a default workspace that was added resolves, to itself.
   */
  lemma {:induction false} IdsResolve(
    ws: seq<Workspace>, defaultPath: Option<string>, now: string, env: Identity, id: string)
    ensures var r := Canon(id, Planned(ws, defaultPath, now, env).aliases);
      && (forall i: nat :: FirstKnown(ws, id, env, i) ==> r == Some(env.paths.idOf(env.paths.normal(ws[i].path))))
      && ((forall w :: w in ws ==> !KnownAs(w, id, env)) ==>
            r == if defaultPath.Some? && id == env.paths.idOf(env.paths.normal(defaultPath.value)) &&
                    forall w :: w in ws ==> env.paths.normal(w.path) != env.paths.normal(defaultPath.value)
                 then Some(id) else None)
  {
    var added := Added(ws, defaultPath, now, env);
    CanonConcat(id, Aliases(ws, env), AddedAliases(added));
    CanonIsFirst(ws, id, env);
    if exists i: nat :: FirstKnown(ws, id, env, i) {
      var i: nat :| FirstKnown(ws, id, env, i);
      assert ws[i] in ws;
    }
    AddedCanon(added, id);
  }

  lemma {:induction false} AddedCanon(added: seq<Workspace>, id: string)
    ensures Canon(id, AddedAliases(added)) == if added != [] && added[0].projectId == id then Some(id) else None
  {
    if added != [] {
      var one := AddedAliases(added);
      assert one[1..] == [];
    }
  }

  // ---- References ----

  /** Pin `i` is the first whose workspace resolves to this id for this task. */
  ghost predicate FirstPin(pins: seq<Pin>, seen: set<(string, string)>, aliases: seq<Alias>, i: nat) {
    && i < |pins| && Canon(pins[i].projectId, aliases).Some?
    && (Canon(pins[i].projectId, aliases).value, pins[i].taskId) !in seen
    && forall j :: 0 <= j < i ==>
         Canon(pins[j].projectId, aliases) != Canon(pins[i].projectId, aliases) || pins[j].taskId != pins[i].taskId
  }

  /** The positions of the pins that are the first of their tasks. */
  ghost predicate FirstPins(pins: seq<Pin>, seen: set<(string, string)>, aliases: seq<Alias>, positions: seq<nat>) {
    Ascending(positions) && forall i: nat :: FirstPin(pins, seen, aliases, i) <==> i in positions
  }

  ghost predicate KeepsFirstPins(
    pins: seq<Pin>, seen: set<(string, string)>, aliases: seq<Alias>, migrated: seq<Pin>, positions: seq<nat>)
  {
    && FirstPins(pins, seen, aliases, positions)
    && |positions| == |migrated| && forall k :: 0 <= k < |migrated| ==> MigratedFrom(pins, aliases, migrated[k], positions[k])
  }

  /** The pin is pin `i` under the id it resolves to, with its task and number. */
  predicate MigratedFrom(pins: seq<Pin>, aliases: seq<Alias>, pin: Pin, i: nat) {
    && i < |pins| && Some(pin.projectId) == Canon(pins[i].projectId, aliases)
    && pin.taskId == pins[i].taskId && pin.order == pins[i].order
  }

  /** The tasks seen once the head has been visited, and whether the head is kept. */
  function SeenAfter(head: Pin, seen: set<(string, string)>, aliases: seq<Alias>): set<(string, string)> {
    var c := Canon(head.projectId, aliases);
    if c.None? then seen else seen + {(c.value, head.taskId)}
  }

  predicate HeadKept(head: Pin, seen: set<(string, string)>, aliases: seq<Alias>) {
    var c := Canon(head.projectId, aliases);
    c.Some? && (c.value, head.taskId) !in seen
  }

  lemma {:induction false} FirstPinStep(pins: seq<Pin>, seen: set<(string, string)>, aliases: seq<Alias>, i: nat)
    requires pins != []
    ensures FirstPin(pins, seen, aliases, i) <==>
      if i == 0 then HeadKept(pins[0], seen, aliases)
      else FirstPin(pins[1..], SeenAfter(pins[0], seen, aliases), aliases, i - 1)
  {
    if i > 0 {
      assert forall j :: 0 < j < |pins| ==> pins[j] == pins[1..][j - 1];
      assert forall j :: 0 <= j < |pins[1..]| ==> pins[1..][j] == pins[j + 1];
    }
  }

  lemma {:induction false} FirstPinsStep(
    pins: seq<Pin>, seen: set<(string, string)>, aliases: seq<Alias>, d: nat, rest: seq<nat>)
    requires pins != [] && FirstPins(pins[1..], SeenAfter(pins[0], seen, aliases), aliases, rest)
    requires d == if HeadKept(pins[0], seen, aliases) then 1 else 0
    ensures FirstPins(pins, seen, aliases, Placed(d, rest))
  {
    PlacedAscending(d, rest);
    forall i: nat ensures FirstPin(pins, seen, aliases, i) <==> i in Placed(d, rest) {
      FirstPinStep(pins, seen, aliases, i);
      InPlaced(d, rest, i);
    }
  }

  lemma {:induction false} PinsHead(pins: seq<Pin>, seen: set<(string, string)>, aliases: seq<Alias>)
    requires pins != []
    ensures var tail := MigratedPins(pins[1..], SeenAfter(pins[0], seen, aliases), aliases);
      if HeadKept(pins[0], seen, aliases)
      then MigratedPins(pins, seen, aliases) == [pins[0].(projectId := Canon(pins[0].projectId, aliases).value)] + tail
      else MigratedPins(pins, seen, aliases) == tail
  {
  }

  /** The migrated pins: the first pin of each task that resolves, in their order and with their numbers. */
  lemma {:induction false} PinsAfter(pins: seq<Pin>, seen: set<(string, string)>, aliases: seq<Alias>) returns (positions: seq<nat>)
    ensures KeepsFirstPins(pins, seen, aliases, MigratedPins(pins, seen, aliases), positions)
  {
    positions := [];
    if pins != [] {
      var next, d := SeenAfter(pins[0], seen, aliases), if HeadKept(pins[0], seen, aliases) then 1 else 0;
      var tail := MigratedPins(pins[1..], next, aliases);
      var rest := PinsAfter(pins[1..], next, aliases);
      FirstPinsStep(pins, seen, aliases, d, rest);
      positions := Placed(d, rest);
      var migrated := MigratedPins(pins, seen, aliases);
      PinsHead(pins, seen, aliases);
      forall k | 0 <= k < |migrated| ensures MigratedFrom(pins, aliases, migrated[k], positions[k]) {
        if k >= d {
          assert MigratedFrom(pins[1..], aliases, tail[k - d], rest[k - d]);
        }
      }
    }
  }

  /** The last used workspace is what the old one resolves to, or else the first workspace. */
  lemma {:induction false} LastAfter<R>(s: State<R>, defaultPath: Option<string>, now: string, order: seq<string>, env: Identity)
    requires forall id :: id in order ==> id in s.runModes
    ensures var m := Migrated(s, defaultPath, now, order, env); var aliases := Planned(s.workspaces, defaultPath, now, env).aliases;
      && m.pins == MigratedPins(s.pins, {}, aliases)
      && m.last == (if s.last.Some? && Canon(s.last.value, aliases).Some? then Canon(s.last.value, aliases)
                    else if m.workspaces == [] then None else Some(m.workspaces[0].projectId))
  {
  }
}
