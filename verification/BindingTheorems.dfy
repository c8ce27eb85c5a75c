/**
 Migration of authoring workflows is a projection, and the stored binding revision counts the
 changes of the binding list over any series of saves, whatever revisions clients send.
 */
module BindingTheorems {
  import opened Wrappers
  import opened Text
  import opened Ordered
  import opened WorkflowBindings

  // ---- The definition revision ----

  /** Extraction leaves the definition that the revision covers unchanged. */
  lemma {:induction false} MigrationKeepsDefinition(world: World, a: Authoring)
    ensures Strip(Migrated(world, a).workflow) == Strip(a.workflow)
    ensures Migrated(world, a).bindings.definitionRevision == world.digest(Strip(a.workflow))
  {
    var w := Migrated(world, a).workflow;
    assert Strip(w).nodes == Strip(a.workflow).nodes;
  }

  // ---- Tables and lists ----

  ghost predicate Keyed(t: map<string, Binding>) {
    forall k :: k in t ==> t[k].slot == k
  }

  lemma {:induction false} BySlotKeyed(list: seq<Binding>, k: nat)
    requires k <= |list|
    ensures Keyed(BySlot(list, k))
    ensures forall s :: s in BySlot(list, k) <==> exists i :: 0 <= i < k && list[i].slot == s
  {
    if k > 0 {
      BySlotKeyed(list, k - 1);
    }
  }

  lemma {:induction false} BySlotAt(list: seq<Binding>, k: nat)
    requires k <= |list| && UniqueSlots(list)
    ensures forall i :: 0 <= i < k ==> list[i].slot in BySlot(list, k) && BySlot(list, k)[list[i].slot] == list[i]
  {
    if k > 0 {
      BySlotAt(list, k - 1);
    }
  }

  lemma {:induction false} ListedFacts(t: map<string, Binding>)
    requires Keyed(t)
    ensures var keys := SortedKeys(t.Keys);
      && |Listed(t)| == |keys|
      && forall i :: 0 <= i < |keys| ==> keys[i] in t && Listed(t)[i] == t[keys[i]] && Listed(t)[i].slot == keys[i]
    ensures UniqueSlots(Listed(t))
  {
    var keys := SortedKeys(t.Keys);
    forall i | 0 <= i < |keys| ensures keys[i] in t {
      assert keys[i] in keys;
    }
    SortedDistinct(keys);
  }

  /** Listing a keyed table and reading the list back gives the table. */
  lemma {:induction false} ListedReadsBack(t: map<string, Binding>)
    requires Keyed(t)
    ensures BySlot(Listed(t), |Listed(t)|) == t
  {
    var list, keys := Listed(t), SortedKeys(t.Keys);
    var back := BySlot(list, |list|);
    ListedFacts(t);
    BySlotKeyed(list, |list|);
    BySlotAt(list, |list|);
    forall k | k in t ensures k in back && back[k] == t[k] {
      assert k in keys;
      var i :| 0 <= i < |keys| && keys[i] == k;
      assert list[i].slot == k;
    }
    forall k | k in back ensures k in t {
      var i :| 0 <= i < |list| && list[i].slot == k;
      assert keys[i] in keys;
    }
  }

  lemma {:induction false} FiledKeyed(world: World, t: map<string, Binding>, nodes: seq<Node>, k: nat)
    requires k <= |nodes| && Keyed(t)
    ensures Keyed(Filed(world, t, nodes, k))
  {
    if k > 0 {
      FiledKeyed(world, t, nodes, k - 1);
    }
  }

  // ---- Idempotence ----

  predicate Clear(n: Node) {
    n.WorkerNode? ==>
      n.worker.provider.None? && n.worker.model.None? && n.worker.permission.None? && n.worker.options == map[]
  }

  lemma {:induction false} ClearNodesFileNothing(world: World, t: map<string, Binding>, nodes: seq<Node>, k: nat)
    requires k <= |nodes| && forall i :: 0 <= i < |nodes| ==> Clear(nodes[i])
    ensures Filed(world, t, nodes, k) == t
  {
    if k > 0 {
      ClearNodesFileNothing(world, t, nodes, k - 1);
    }
  }

  lemma {:induction false} NodesSettle(first: World, second: World, nodes: seq<Node>)
    requires first.template == second.template && RealUuids(first)
    ensures MigratedNodes(second, MigratedNodes(first, nodes)) == MigratedNodes(first, nodes)
  {
  }

  /** The table behind the migrated list. */
  function Kept(world: World, a: Authoring): map<string, Binding> {
    var nodes, list := a.workflow.nodes, a.bindings.list;
    Retained(Filed(world, BySlot(list, |list|), nodes, |nodes|), ActiveSlots(MigratedNodes(world, nodes)))
  }

  lemma {:induction false} KeptKeyed(world: World, a: Authoring)
    ensures Keyed(Kept(world, a)) && UniqueSlots(NextBindings(world, a))
  {
    var nodes, list := a.workflow.nodes, a.bindings.list;
    BySlotKeyed(list, |list|);
    FiledKeyed(world, BySlot(list, |list|), nodes, |nodes|);
    ListedFacts(Kept(world, a));
  }

  /** A list that names only active slots of cleared workers is what the migration computes again. */
  lemma {:induction false} ListSettles(world: World, m: Authoring, kept: map<string, Binding>)
    requires forall i :: 0 <= i < |m.workflow.nodes| ==> Clear(m.workflow.nodes[i])
    requires MigratedNodes(world, m.workflow.nodes) == m.workflow.nodes
    requires Keyed(kept) && kept.Keys <= ActiveSlots(m.workflow.nodes)
    requires m.bindings.list == Listed(kept)
    ensures NextBindings(world, m) == m.bindings.list
  {
    var nodes := m.workflow.nodes;
    ListedReadsBack(kept);
    ClearNodesFileNothing(world, kept, nodes, |nodes|);
    assert Retained(kept, ActiveSlots(nodes)) == kept;
  }

  /** The migration is a no-op on its own output, even if other UUIDs were on offer. */
  lemma {:induction false} MigrationIdempotent(first: World, second: World, a: Authoring)
    requires first.template == second.template && first.digest == second.digest && RealUuids(first)
    ensures Migrated(second, Migrated(first, a)) == Migrated(first, a)
  {
    var m := Migrated(first, a);
    KeptKeyed(first, a);
    NodesSettle(first, second, a.workflow.nodes);
    ListSettles(second, m, Kept(first, a));
  }

  // ---- Saves over time ----

  /** One save by a client; `client` carries whatever revisions the client believes in. */
  datatype Submission = Submission(client: Authoring, uuid: nat -> string, persistedUuid: nat -> string)

  ghost predicate RealSubmissions(subs: seq<Submission>) {
    forall i, n :: 0 <= i < |subs| ==> !Blank(subs[i].uuid(n)) && !Blank(subs[i].persistedUuid(n))
  }

  /** What is stored after one save; a refused save stores nothing new. */
  function AfterSave(world: World, stored: Option<Authoring>, s: Submission): Option<Authoring> {
    var saved := Saved(world.(uuid := s.uuid), world.(uuid := s.persistedUuid), stored, s.client);
    if saved.Some? then saved else stored
  }

  /** What is stored after a series of saves that starts from `start`. */
  function AfterSaves(world: World, start: Option<Authoring>, subs: seq<Submission>): Option<Authoring> {
    if subs == [] then start
    else AfterSave(world, AfterSaves(world, start, subs[..|subs| - 1]), subs[|subs| - 1])
  }

  /** A client's list is refused exactly for a duplicate slot. */
  predicate Acceptable(s: Submission) {
    UniqueSlots(s.client.bindings.list)
  }

  /** The binding lists of the accepted saves, from the clients' workflows and bindings alone. */
  function StoredLists(world: World, subs: seq<Submission>): seq<seq<Binding>> {
    if subs == [] then []
    else
      var s := subs[|subs| - 1];
      var before := StoredLists(world, subs[..|subs| - 1]);
      if Acceptable(s) then before + [NextBindings(world.(uuid := s.uuid), s.client)] else before
  }

  /** The list and the revision that counting starts from. */
  datatype Base = Base(list: seq<Binding>, revision: nat)

  /** Nothing stored counts as the empty list at revision 0; a stored value counts as its migration. */
  function BaseOf(world: World, start: Option<Authoring>, s: Submission): Base {
    match start
    case None => Base([], 0)
    case Some(a) =>
      var m := Migrated(world.(uuid := s.persistedUuid), a).bindings;
      Base(m.list, m.bindingRevision)
  }

  /** The base that the first accepted save fixed. */
  function BaseOfRun(world: World, start: Option<Authoring>, subs: seq<Submission>): Base {
    if subs == [] then Base([], 0)
    else
      var init, s := subs[..|subs| - 1], subs[|subs| - 1];
      if Acceptable(s) && StoredLists(world, init) == [] then BaseOf(world, start, s) else BaseOfRun(world, start, init)
  }

  /** How often a series of lists changes, starting from `first`. */
  function Changes(first: seq<Binding>, lists: seq<seq<Binding>>): nat {
    if lists == [] then 0
    else
      var before := lists[..|lists| - 1];
      var last := if before == [] then first else before[|before| - 1];
      Changes(first, before) + if lists[|lists| - 1] != last then 1 else 0
  }

  function Saturated(n: nat): nat {
    if n <= U64_MAX then n else U64_MAX
  }

  /** What is stored is a fixed point of the migration. */
  ghost predicate Settled(world: World, stored: Authoring) {
    && UniqueSlots(stored.bindings.list)
    && forall other: World :: other.template == world.template && other.digest == world.digest ==>
         Migrated(other, stored) == stored
  }

  /** Changing only the binding revision of a settled value keeps it settled. */
  lemma {:induction false} SettledWithRevision(world: World, m: Authoring, revision: nat)
    requires Settled(world, m)
    ensures Settled(world, m.(bindings := m.bindings.(bindingRevision := revision)))
  {
    var r := m.(bindings := m.bindings.(bindingRevision := revision));
    forall other: World | other.template == world.template && other.digest == world.digest
      ensures Migrated(other, r) == r
    {
      assert Migrated(other, m) == m;
      assert NextBindings(other, r) == NextBindings(other, m);
    }
  }

  lemma {:induction false} MigratedSettles(world: World, a: Authoring)
    requires RealUuids(world)
    ensures Settled(world, Migrated(world, a))
  {
    KeptKeyed(world, a);
    forall other: World | other.template == world.template && other.digest == world.digest
      ensures Migrated(other, Migrated(world, a)) == Migrated(world, a)
    {
      MigrationIdempotent(world, other, a);
    }
  }

  /** `r` is a fixed point with this list, and its revision counts on from the base. */
  ghost predicate CountsFrom(world: World, r: Option<Authoring>, list: seq<Binding>, base: Base) {
    && r.Some? && Settled(world, r.value) && r.value.bindings.list == list
    && r.value.bindings.bindingRevision == if base.list == list then base.revision else Increment(base.revision)
  }

  /** A save over any stored value, migrated or not, stores a fixed point; the revision counts from its migration. */
  lemma {:induction false} SavedSettles(world: World, stored: Option<Authoring>, s: Submission)
    requires forall n :: !Blank(s.uuid(n))
    requires stored.Some? ==> UniqueSlots(stored.value.bindings.list)
    requires Acceptable(s)
    ensures CountsFrom(world, AfterSave(world, stored, s), NextBindings(world.(uuid := s.uuid), s.client),
                       BaseOf(world, stored, s))
  {
    var w := world.(uuid := s.uuid);
    var m := Migrated(w, s.client);
    var current := if stored.Some? then Some(Migrated(world.(uuid := s.persistedUuid), stored.value)) else None;
    MigratedSettles(w, s.client);
    assert Settled(world, m);
    SettledWithRevision(world, m, SavedRevision(current, m.bindings.list));
  }

  lemma {:induction false} SettledBase(world: World, stored: Authoring, s: Submission)
    requires Settled(world, stored)
    ensures BaseOf(world, Some(stored), s) == Base(stored.bindings.list, stored.bindings.bindingRevision)
  {
    assert Migrated(world.(uuid := s.persistedUuid), stored) == stored;
  }

  /** The stored value is settled, holds the last of `lists`, and counts their changes from the base. */
  ghost predicate Counts(world: World, start: Option<Authoring>, stored: Option<Authoring>, base: Base, lists: seq<seq<Binding>>) {
    if lists == [] then stored == start
    else
      && stored.Some? && Settled(world, stored.value)
      && stored.value.bindings.list == lists[|lists| - 1]
      && stored.value.bindings.bindingRevision == Saturated(base.revision + Changes(base.list, lists))
  }

  lemma {:induction false} OneMoreList(base: Base, lists: seq<seq<Binding>>, list: seq<Binding>, revision: nat)
    requires base.revision <= U64_MAX && revision == Saturated(base.revision + Changes(base.list, lists))
    ensures var last := if lists == [] then base.list else lists[|lists| - 1];
      (if last == list then revision else Increment(revision)) ==
      Saturated(base.revision + Changes(base.list, lists + [list]))
  {
    assert (lists + [list])[..|lists|] == lists;
  }

  lemma {:induction false} BaseBounded(world: World, start: Option<Authoring>, s: Submission)
    requires start.Some? ==> start.value.bindings.bindingRevision <= U64_MAX
    ensures BaseOf(world, start, s).revision <= U64_MAX
  {
  }

  lemma {:induction false} RevisionAfter(base: Base, before: seq<seq<Binding>>)
    requires base.revision <= U64_MAX
    ensures BaseAfter(base, before).revision == Saturated(base.revision + Changes(base.list, before))
    ensures BaseAfter(base, before).list == if before == [] then base.list else before[|before| - 1]
  {
  }

  /** The value `r` that a save stores over the base `now` continues the count. */
  lemma {:induction false} CountsOn(
    world: World, start: Option<Authoring>, r: Option<Authoring>, base: Base, before: seq<seq<Binding>>,
    list: seq<Binding>, now: Base)
    requires CountsFrom(world, r, list, now) && base.revision <= U64_MAX
    requires now == BaseAfter(base, before)
    ensures Counts(world, start, r, base, before + [list])
  {
    RevisionAfter(base, before);
    OneMoreList(base, before, list, now.revision);
    var lists := before + [list];
    assert lists != [] && lists[|lists| - 1] == list;
  }

  /** The base after some accepted lists. */
  function BaseAfter(base: Base, before: seq<seq<Binding>>): Base {
    if before == [] then base
    else Base(before[|before| - 1], Saturated(base.revision + Changes(base.list, before)))
  }

  /** What the next save counts on from. */
  lemma {:induction false} NextBase(
    world: World, start: Option<Authoring>, stored: Option<Authoring>, base: Base, before: seq<seq<Binding>>, s: Submission)
    requires Counts(world, start, stored, base, before)
    requires before == [] ==> base == BaseOf(world, start, s)
    ensures BaseOf(world, stored, s) == BaseAfter(base, before)
  {
    if before != [] {
      SettledBase(world, stored.value, s);
    }
  }

  lemma {:induction false} SaveCounts(
    world: World, start: Option<Authoring>, stored: Option<Authoring>, base: Base, before: seq<seq<Binding>>, s: Submission)
    requires forall n :: !Blank(s.uuid(n))
    requires start.Some? ==> UniqueSlots(start.value.bindings.list)
    requires Counts(world, start, stored, base, before) && Acceptable(s)
    requires base.revision <= U64_MAX && (before == [] ==> base == BaseOf(world, start, s))
    ensures Counts(world, start, AfterSave(world, stored, s), base,
                   before + [NextBindings(world.(uuid := s.uuid), s.client)])
  {
    var list, r := NextBindings(world.(uuid := s.uuid), s.client), AfterSave(world, stored, s);
    NextBase(world, start, stored, base, before, s);
    SavedSettles(world, stored, s);
    CountsOn(world, start, r, base, before, list, BaseOf(world, stored, s));
  }

  /**
   After any series of saves over anything that was stored before, the stored revision is the revision
   that migrating the old value gives, plus the number of times the stored list changed since.
   */
  lemma {:induction false} RevisionCountsChanges(world: World, start: Option<Authoring>, subs: seq<Submission>)
    requires RealSubmissions(subs)
    requires start.Some? ==>
      UniqueSlots(start.value.bindings.list) && start.value.bindings.bindingRevision <= U64_MAX
    ensures BaseOfRun(world, start, subs).revision <= U64_MAX
    ensures Counts(world, start, AfterSaves(world, start, subs), BaseOfRun(world, start, subs), StoredLists(world, subs))
    decreases |subs|
  {
    if subs != [] {
      var pre, s := subs[..|subs| - 1], subs[|subs| - 1];
      assert forall i :: 0 <= i < |pre| ==> pre[i] == subs[i];
      RevisionCountsChanges(world, start, pre);
      var stored, before := AfterSaves(world, start, pre), StoredLists(world, pre);
      BaseBounded(world, start, s);
      if Acceptable(s) {
        SaveCounts(world, start, stored, BaseOfRun(world, start, subs), before, s);
      }
    }
  }

  /** Over a stored value with a duplicate slot every save is refused. */
  lemma {:induction false} DuplicateBlocksSaves(world: World, start: Authoring, subs: seq<Submission>)
    requires !UniqueSlots(start.bindings.list)
    ensures AfterSaves(world, Some(start), subs) == Some(start)
    decreases |subs|
  {
    if subs != [] {
      DuplicateBlocksSaves(world, start, subs[..|subs| - 1]);
    }
  }

  function WithRevisions(a: Authoring, definition: string, binding: nat): Authoring {
    a.(bindings := a.bindings.(definitionRevision := definition, bindingRevision := binding))
  }

  /** The revisions a client sends do not influence what a save stores. */
  lemma {:induction false} ClientRevisionsIgnored(world: World, persistedWorld: World, stored: Option<Authoring>, a: Authoring,
                               definition: string, binding: nat)
    ensures Saved(world, persistedWorld, stored, WithRevisions(a, definition, binding)) ==
            Saved(world, persistedWorld, stored, a)
  {
    assert NextBindings(world, WithRevisions(a, definition, binding)) == NextBindings(world, a);
  }
}
