/**
 Model bindings of authoring workflows (src/workflow_model_binding.rs): execution fields are
 extracted from the workers into a list of bindings keyed by slot, and injected back before a run.
 */
module WorkflowBindings {
  import opened Wrappers
  import opened Text
  import opened Ordered

  const U64_MAX: nat := 0xFFFF_FFFF_FFFF_FFFF

  datatype Worker = Worker(
    id: string,
    slot: Option<string>,
    provider: Option<string>,
    model: Option<string>,
    permission: Option<string>,
    options: map<string, string>,
    rest: string)

  datatype Node = WorkerNode(worker: Worker) | AiDynamic(payload: string)

  datatype Workflow = Workflow(nodes: seq<Node>, rest: string)

  datatype Binding = Binding(
    slot: string,
    agent: string,
    model: Option<string>,
    permission: Option<string>,
    options: map<string, string>)

  datatype Bindings = Bindings(definitionRevision: string, bindingRevision: nat, list: seq<Binding>)

  datatype Authoring = Authoring(workflow: Workflow, bindings: Bindings)

  datatype Error =
    | SlotRequired(nodeId: string)
    | SlotDuplicate(slot: string, nodeIds: seq<string>)
    | BindingDuplicate(slot: string)
    | SlotNotFound(slot: string)
    | AgentRequired(slot: string, nodeId: string)
    | AgentUnavailable(slot: string, agent: string)
    | ModelUnsupported(slot: string, agent: string, model: string)
    | PermissionUnsupported(slot: string, agent: string, permission: string)
    | OptionUnsupported(slot: string, agent: string, option: string, value: string)

  /**
   Outside world of one migration: the digest of a canonical workflow, the built-in template it
   belongs to, and the UUID handed to each node position that needs a slot.
   */
  datatype World = World(digest: Workflow -> string, template: Option<string>, uuid: nat -> string)

  /** UUIDs are never blank. */
  ghost predicate RealUuids(world: World) {
    forall i :: !Blank(world.uuid(i))
  }

  // ---- Definition revision ----

  function StripWorker(w: Worker): Worker {
    w.(slot := None, provider := None, model := None, permission := None, options := map[])
  }

  function StripNode(n: Node): Node {
    if n.WorkerNode? then WorkerNode(StripWorker(n.worker)) else n
  }

  /** The part of a workflow that its definition revision covers. */
  function Strip(w: Workflow): Workflow {
    w.(nodes := seq(|w.nodes|, i requires 0 <= i < |w.nodes| => StripNode(w.nodes[i])))
  }

  // ---- Extraction ----

  /** The first binding whose slot was used by an earlier one. */
  function DuplicateBinding(list: seq<Binding>, k: nat): (r: Option<string>)
    requires k <= |list|
    ensures r.None? <==> forall i, j :: 0 <= i < j < k ==> list[i].slot != list[j].slot
  {
    if k == 0 then None
    else
      var before := DuplicateBinding(list, k - 1);
      if before.Some? then before
      else if exists i :: 0 <= i < k - 1 && list[i].slot == list[k - 1].slot then Some(list[k - 1].slot)
      else None
  }

  predicate UniqueSlots(list: seq<Binding>) {
    forall i, j :: 0 <= i < j < |list| ==> list[i].slot != list[j].slot
  }

  function BySlot(list: seq<Binding>, k: nat): map<string, Binding>
    requires k <= |list|
  {
    if k == 0 then map[] else BySlot(list, k - 1)[list[k - 1].slot := list[k - 1]]
  }

  function BuiltInSlot(template: string, nodeId: string): string {
    "builtin:" + template + ":" + nodeId
  }

  function NonBlank(s: Option<string>): Option<string> {
    if s.Some? && !Blank(s.value) then s else None
  }

  /** The slot id a worker carries after the migration. */
  function NewSlot(world: World, i: nat, w: Worker): string {
    if world.template.Some? then BuiltInSlot(world.template.value, w.id)
    else NonBlank(w.slot).GetOr(world.uuid(i))
  }

  /** The key under which its binding is filed: the trimmed slot of the workflow, or the assigned slot as is. */
  function BindingKey(world: World, i: nat, w: Worker): string {
    if world.template.None? && NonBlank(w.slot).Some? then Trim(w.slot.value) else NewSlot(world, i, w)
  }

  /** The binding that a worker's execution fields describe, if it names an agent. */
  function Extracted(key: string, w: Worker): Option<Binding> {
    if NonBlank(w.provider).None? then None
    else Some(Binding(key, Trim(w.provider.value), NonBlank(w.model), NonBlank(w.permission), w.options))
  }

  function ClearedWorker(w: Worker): Worker {
    w.(provider := None, model := None, permission := None, options := map[])
  }

  function MigratedNode(world: World, i: nat, n: Node): Node {
    if n.WorkerNode? then WorkerNode(ClearedWorker(n.worker).(slot := Some(NewSlot(world, i, n.worker)))) else n
  }

  function MigratedNodes(world: World, nodes: seq<Node>): seq<Node> {
    seq(|nodes|, i requires 0 <= i < |nodes| => MigratedNode(world, i, nodes[i]))
  }

  /** Filing one node: an existing binding for the slot wins over the worker's own fields. */
  function FileNode(world: World, table: map<string, Binding>, i: nat, n: Node): map<string, Binding> {
    if n.AiDynamic? then table
    else
      var key := BindingKey(world, i, n.worker);
      var b := Extracted(key, n.worker);
      if b.Some? && key !in table then table[key := b.value] else table
  }

  function Filed(world: World, table: map<string, Binding>, nodes: seq<Node>, k: nat): map<string, Binding>
    requires k <= |nodes|
  {
    if k == 0 then table else FileNode(world, Filed(world, table, nodes, k - 1), k - 1, nodes[k - 1])
  }

  function ActiveSlots(nodes: seq<Node>): set<string> {
    set i | 0 <= i < |nodes| && nodes[i].WorkerNode? && nodes[i].worker.slot.Some? :: nodes[i].worker.slot.value
  }

  /** The values of a table in key order. */
  function Listed(table: map<string, Binding>): seq<Binding> {
    var keys := SortedKeys(table.Keys);
    seq(|keys|, i requires 0 <= i < |keys| => assert keys[i] in keys; table[keys[i]])
  }

  function Retained(table: map<string, Binding>, slots: set<string>): map<string, Binding> {
    map k | k in table && k in slots :: table[k]
  }

  function NextBindings(world: World, a: Authoring): seq<Binding> {
    var nodes := a.workflow.nodes;
    var list := a.bindings.list;
    Listed(Retained(Filed(world, BySlot(list, |list|), nodes, |nodes|), ActiveSlots(MigratedNodes(world, nodes))))
  }

  function Increment(n: nat): nat {
    if n < U64_MAX then n + 1 else n
  }

  /** `migrate_authoring_workflow` on a value whose bindings have unique slots. */
  function Migrated(world: World, a: Authoring): Authoring {
    var w := a.workflow.(nodes := MigratedNodes(world, a.workflow.nodes));
    var next := NextBindings(world, a);
    Authoring(w, Bindings(
      world.digest(Strip(w)),
      if next != a.bindings.list then Increment(a.bindings.bindingRevision) else a.bindings.bindingRevision,
      next))
  }

  /** The revision that a save stores, decided by what is persisted and never by the client. */
  function SavedRevision(persisted: Option<Authoring>, next: seq<Binding>): nat {
    match persisted
    case None => if next == [] then 0 else 1
    case Some(p) => if p.bindings.list == next then p.bindings.bindingRevision else Increment(p.bindings.bindingRevision)
  }

  /** `reconcile_authoring_workflow_for_save`; `None` is the duplicate-binding error. */
  function Saved(world: World, persistedWorld: World, persisted: Option<Authoring>, a: Authoring): Option<Authoring> {
    if (persisted.Some? && !UniqueSlots(persisted.value.bindings.list)) || !UniqueSlots(a.bindings.list) then None
    else
      var current := if persisted.Some? then Some(Migrated(persistedWorld, persisted.value)) else None;
      var m := Migrated(world, a);
      Some(m.(bindings := m.bindings.(bindingRevision := SavedRevision(current, m.bindings.list))))
  }

  /** A workflow and its bindings, edited in place. */
  class AuthoringWorkflow {
    const nodes: array<Node>
    const rest: string
    var definitionRevision: string
    var bindingRevision: nat
    var bindings: seq<Binding>

    function View(): Authoring
      reads this, nodes
    {
      Authoring(Workflow(nodes[..], rest), Bindings(definitionRevision, bindingRevision, bindings))
    }

    constructor (a: Authoring)
      ensures View() == a && fresh(nodes)
    {
      var ns := a.workflow.nodes;
      nodes := new Node[|ns|](i requires 0 <= i < |ns| => ns[i]);
      rest := a.workflow.rest;
      definitionRevision := a.bindings.definitionRevision;
      bindingRevision := a.bindings.bindingRevision;
      bindings := a.bindings.list;
      new;
      assert nodes[..] == ns;
    }

    /**
     Move every worker's execution fields into the bindings. `changed` says exactly whether anything
     changed, and a refusal changes nothing.
     */
    method Migrate(world: World) returns (r: Result<bool, Error>)
      requires RealUuids(world)
      modifies this, nodes
      ensures r.Ok? <==> UniqueSlots(old(bindings))
      ensures r.Ok? ==> View() == Migrated(world, old(View())) && (r.value <==> View() != old(View()))
      ensures r.Err? ==> View() == old(View()) && r.error.BindingDuplicate?
    {
      var duplicate := DuplicateBinding(bindings, |bindings|);
      if duplicate.Some? {
        return Err(BindingDuplicate(duplicate.value));
      }
      ghost var a := View();
      var previous := bindings;
      var table, changed := ExtractWorkers(world, BySlot(previous, |previous|));
      var next := Listed(Retained(table, ActiveSlots(nodes[..])));
      assert next == NextBindings(world, a);
      bindings := next;
      var revision := world.digest(Strip(Workflow(nodes[..], rest)));
      if definitionRevision != revision {
        definitionRevision := revision;
        changed := true;
      }
      if previous != next {
        bindingRevision := Increment(bindingRevision);
        changed := true;
      }
      r := Ok(changed);
    }

    /** Clear every worker in place and file the bindings they described. */
    method ExtractWorkers(world: World, known: map<string, Binding>)
      returns (table: map<string, Binding>, changed: bool)
      requires RealUuids(world)
      modifies nodes
      ensures nodes[..] == MigratedNodes(world, old(nodes[..]))
      ensures table == Filed(world, known, old(nodes[..]), nodes.Length)
      ensures changed <==> nodes[..] != old(nodes[..])
    {
      ghost var ns := nodes[..];
      table := known;
      changed := false;
      var i := 0;
      while i < nodes.Length
        invariant 0 <= i <= nodes.Length
        invariant table == Filed(world, known, ns, i)
        invariant forall k :: 0 <= k < i ==> nodes[k] == MigratedNode(world, k, ns[k])
        invariant forall k :: i <= k < nodes.Length ==> nodes[k] == ns[k]
        invariant !changed ==> forall k :: 0 <= k < i ==> nodes[k] == ns[k]
        invariant changed ==> exists k :: 0 <= k < i && nodes[k] != ns[k]
      {
        if nodes[i].WorkerNode? {
          var worker := nodes[i].worker;
          var key, migrated, edited := MigrateWorker(world, i, worker);
          var b := Extracted(key, worker);
          if b.Some? && key !in table {
            table := table[key := b.value];
          }
          nodes[i] := WorkerNode(migrated);
          changed := changed || edited;
        }
        i := i + 1;
      }
    }

    /** One worker: its slot, its cleared fields, and whether either differs from before. */
    static method MigrateWorker(world: World, i: nat, w: Worker) returns (key: string, w': Worker, changed: bool)
      requires RealUuids(world)
      ensures key == BindingKey(world, i, w)
      ensures WorkerNode(w') == MigratedNode(world, i, WorkerNode(w))
      ensures changed <==> w' != w
    {
      w' := w;
      changed := false;
      if world.template.Some? {
        key := BuiltInSlot(world.template.value, w.id);
        if w.slot != Some(key) {
          w' := w'.(slot := Some(key));
          changed := true;
        }
      } else if w.slot.Some? && !Blank(w.slot.value) {
        key := Trim(w.slot.value);
      } else {
        key := world.uuid(i);
        w' := w'.(slot := Some(key));
        changed := true;
      }
      if w.provider.Some? || w.model.Some? || w.permission.Some? || w.options != map[] {
        w' := w'.(provider := None, model := None, permission := None, options := map[]);
        changed := true;
      }
    }

    /** Migrate and decide the stored revision against what is persisted. */
    method ReconcileForSave(world: World, persistedWorld: World, persisted: Option<Authoring>)
      returns (r: Result<bool, Error>)
      requires RealUuids(world) && RealUuids(persistedWorld)
      modifies this, nodes
      ensures var saved := Saved(world, persistedWorld, persisted, old(View()));
              && (r.Ok? <==> saved.Some?)
              && (r.Ok? ==> View() == saved.value && (r.value <==> View() != old(View())))
              && (r.Err? ==> View() == old(View()) && r.error.BindingDuplicate?)
    {
      ghost var a := View();
      var current: Option<Authoring> := None;
      if persisted.Some? {
        var copy := new AuthoringWorkflow(persisted.value);
        var outcome := copy.Migrate(persistedWorld);
        if outcome.Err? {
          return outcome;
        }
        current := Some(copy.View());
      }
      r := Migrate(world);
      if r.Err? {
        return;
      }
      var revision := SavedRevision(current, bindings);
      if bindingRevision != revision {
        bindingRevision := revision;
        r := Ok(true);
      }
    }
  }
}
