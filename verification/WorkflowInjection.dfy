/**
 Injecting bindings into an authoring workflow before a run (src/workflow_model_binding.rs), and the
 two round trips between injection and the extraction of `WorkflowBindings`.
 */
module WorkflowInjection {
  import opened Wrappers
  import opened Text
  import opened Ordered
  import opened WorkflowBindings
  import opened BindingTheorems

  /** What diagnostics report of a provider; options are pairs of option id and allowed value. */
  datatype Diagnostic = Diagnostic(
    available: bool, models: set<string>, modes: set<string>, options: set<(string, string)>)

  datatype Providers = Providers(managed: set<string>, diagnostics: map<string, Diagnostic>)

  predicate AgentChar(c: char) {
    'a' <= c <= 'z' || '0' <= c <= '9' || c == '-'
  }

  /** `ManagedAgentId::from_str`. */
  function ParseAgent(s: string): Option<string> {
    var t := Trim(s);
    if t != [] && forall i :: 0 <= i < |t| ==> AgentChar(t[i]) then Some(t) else None
  }

  // ---- Specification ----

  predicate HasSlot(n: Node) {
    n.WorkerNode? ==> NonBlank(n.worker.slot).Some?
  }

  /** Worker ids by trimmed slot, over the first `k` nodes. */
  function NodesBySlot(nodes: seq<Node>, k: nat): map<string, seq<string>>
    requires k <= |nodes|
  {
    if k == 0 then map[]
    else
      var before := NodesBySlot(nodes, k - 1);
      var n := nodes[k - 1];
      if n.AiDynamic? || !HasSlot(n) then before
      else
        var slot := Trim(n.worker.slot.value);
        before[slot := (if slot in before then before[slot] else []) + [n.worker.id]]
  }

  function SharedSlots(bySlot: map<string, seq<string>>): set<string> {
    set s | s in bySlot && |bySlot[s]| > 1
  }

  /** The first binding that no worker can use. */
  function UnknownBinding(list: seq<Binding>, bySlot: map<string, seq<string>>, k: nat): (r: Option<string>)
    requires k <= |list|
    ensures r.None? <==> forall i :: 0 <= i < k ==> list[i].slot in bySlot
  {
    if k == 0 then None
    else
      var before := UnknownBinding(list, bySlot, k - 1);
      if before.Some? then before
      else if list[k - 1].slot !in bySlot then Some(list[k - 1].slot)
      else None
  }

  /** The options of a binding that its provider does not offer. */
  function RefusedOptions(options: map<string, string>, offered: set<(string, string)>): set<string> {
    set o | o in options && (o, options[o]) !in offered
  }

  /** Why a binding cannot be used by a worker, in the order of the checks. */
  function Refusal(providers: Providers, slot: string, b: Binding): Option<Error> {
    var agent := ParseAgent(b.agent);
    if agent.None? || agent.value !in providers.managed
       || b.agent !in providers.diagnostics || !providers.diagnostics[b.agent].available
    then Some(AgentUnavailable(slot, b.agent))
    else
      var d := providers.diagnostics[b.agent];
      var refused := RefusedOptions(b.options, d.options);
      if b.model.Some? && b.model.value !in d.models then Some(ModelUnsupported(slot, b.agent, b.model.value))
      else if b.permission.Some? && b.permission.value !in d.modes
      then Some(PermissionUnsupported(slot, b.agent, b.permission.value))
      else if refused != {} then
        var o := Least(refused);
        Some(OptionUnsupported(slot, b.agent, o, b.options[o]))
      else None
  }

  function InjectedWorker(w: Worker, b: Binding): Worker {
    w.(provider := Some(b.agent), model := b.model, permission := b.permission, options := b.options)
  }

  function InjectNode(providers: Providers, table: map<string, Binding>, n: Node): Result<Node, Error>
    requires HasSlot(n)
  {
    if n.AiDynamic? then Ok(n)
    else
      var slot := n.worker.slot.value;
      if slot !in table then Err(AgentRequired(slot, n.worker.id))
      else
        var refusal := Refusal(providers, slot, table[slot]);
        if refusal.Some? then Err(refusal.value) else Ok(WorkerNode(InjectedWorker(n.worker, table[slot])))
  }

  /** The first error among the first `k` nodes. */
  function InjectError(providers: Providers, table: map<string, Binding>, nodes: seq<Node>, k: nat): (r: Option<Error>)
    requires k <= |nodes| && forall i :: 0 <= i < |nodes| ==> HasSlot(nodes[i])
    ensures r.None? <==> forall i :: 0 <= i < k ==> InjectNode(providers, table, nodes[i]).Ok?
  {
    if k == 0 then None
    else
      var before := InjectError(providers, table, nodes, k - 1);
      if before.Some? then before
      else
        var r := InjectNode(providers, table, nodes[k - 1]);
        if r.Err? then Some(r.error) else None
  }

  function MissingSlot(nodes: seq<Node>, k: nat): (r: Option<string>)
    requires k <= |nodes|
    ensures r.None? <==> forall i :: 0 <= i < k ==> HasSlot(nodes[i])
  {
    if k == 0 then None
    else
      var before := MissingSlot(nodes, k - 1);
      if before.Some? then before
      else if !HasSlot(nodes[k - 1]) then Some(nodes[k - 1].worker.id)
      else None
  }

  /** `validate_and_inject`. */
  function Injected(providers: Providers, w: Workflow, list: seq<Binding>): Result<Workflow, Error> {
    var nodes := w.nodes;
    var duplicate := DuplicateBinding(list, |list|);
    if duplicate.Some? then Err(BindingDuplicate(duplicate.value))
    else
      var missing := MissingSlot(nodes, |nodes|);
      if missing.Some? then Err(SlotRequired(missing.value))
      else
        var bySlot := NodesBySlot(nodes, |nodes|);
        var shared := SharedSlots(bySlot);
        if shared != {} then Err(SlotDuplicate(Least(shared), bySlot[Least(shared)]))
        else
          var unknown := UnknownBinding(list, bySlot, |list|);
          if unknown.Some? then Err(SlotNotFound(unknown.value))
          else
            var table := BySlot(list, |list|);
            var e := InjectError(providers, table, nodes, |nodes|);
            if e.Some? then Err(e.value)
            else Ok(w.(nodes := seq(|nodes|, i requires 0 <= i < |nodes| =>
                                 InjectNode(providers, table, nodes[i]).value)))
  }

  // ---- The method ----

  method ValidateAndInject(providers: Providers, w: Workflow, list: seq<Binding>) returns (r: Result<Workflow, Error>)
    ensures r == Injected(providers, w, list)
  {
    var nodes := w.nodes;
    var duplicate := DuplicateBinding(list, |list|);
    if duplicate.Some? {
      return Err(BindingDuplicate(duplicate.value));
    }
    var grouped := GroupBySlot(nodes);
    if grouped.Err? {
      return Err(grouped.error);
    }
    var bySlot := grouped.value;
    var shared := SharedSlots(bySlot);
    if shared != {} {
      var slot := Least(shared);
      return Err(SlotDuplicate(slot, bySlot[slot]));
    }
    var unknown := UnknownBinding(list, bySlot, |list|);
    if unknown.Some? {
      return Err(SlotNotFound(unknown.value));
    }
    var table := BySlot(list, |list|);
    var executable := nodes;
    var i := 0;
    while i < |nodes|
      invariant 0 <= i <= |nodes| == |executable|
      invariant InjectError(providers, table, nodes, i).None?
      invariant forall k :: 0 <= k < i ==> executable[k] == InjectNode(providers, table, nodes[k]).value
      invariant forall k :: i <= k < |nodes| ==> executable[k] == nodes[k]
    {
      var node := InjectNode(providers, table, executable[i]);
      if node.Err? {
        FirstErrorStays(providers, table, nodes, i + 1, |nodes|);
        return Err(node.error);
      }
      executable := executable[i := node.value];
      i := i + 1;
    }
    assert executable == seq(|nodes|, i requires 0 <= i < |nodes| => InjectNode(providers, table, nodes[i]).value);
    r := Ok(w.(nodes := executable));
  }

  method GroupBySlot(nodes: seq<Node>) returns (r: Result<map<string, seq<string>>, Error>)
    ensures match MissingSlot(nodes, |nodes|)
            case Some(id) => r == Err(SlotRequired(id))
            case None => r == Ok(NodesBySlot(nodes, |nodes|))
  {
    var bySlot: map<string, seq<string>> := map[];
    var i := 0;
    while i < |nodes|
      invariant 0 <= i <= |nodes| && MissingSlot(nodes, i).None?
      invariant bySlot == NodesBySlot(nodes, i)
    {
      if nodes[i].WorkerNode? {
        var worker := nodes[i].worker;
        if NonBlank(worker.slot).None? {
          FirstMissingStays(nodes, i + 1, |nodes|);
          return Err(SlotRequired(worker.id));
        }
        var slot := Trim(worker.slot.value);
        bySlot := bySlot[slot := (if slot in bySlot then bySlot[slot] else []) + [worker.id]];
      }
      i := i + 1;
    }
    r := Ok(bySlot);
  }

  lemma {:induction false} FirstMissingStays(nodes: seq<Node>, k: nat, n: nat)
    requires k <= n <= |nodes| && MissingSlot(nodes, k).Some?
    ensures MissingSlot(nodes, n) == MissingSlot(nodes, k)
  {
    if k < n {
      FirstMissingStays(nodes, k, n - 1);
    }
  }

  lemma {:induction false} FirstErrorStays(providers: Providers, table: map<string, Binding>, nodes: seq<Node>, k: nat, n: nat)
    requires k <= n <= |nodes| && forall i :: 0 <= i < |nodes| ==> HasSlot(nodes[i])
    requires InjectError(providers, table, nodes, k).Some?
    ensures InjectError(providers, table, nodes, n) == InjectError(providers, table, nodes, k)
  {
    if k < n {
      FirstErrorStays(providers, table, nodes, k, n - 1);
    }
  }

  // ---- What success tells about the slots ----

  predicate IsWorker(nodes: seq<Node>, i: int) {
    0 <= i < |nodes| && nodes[i].WorkerNode?
  }

  function SlotAt(nodes: seq<Node>, i: int): string
    requires IsWorker(nodes, i)
  {
    nodes[i].worker.slot.GetOr("")
  }

  function TrimmedAt(nodes: seq<Node>, i: int): string
    requires IsWorker(nodes, i)
  {
    Trim(SlotAt(nodes, i))
  }

  ghost predicate UsedBefore(nodes: seq<Node>, k: nat, s: string) {
    exists i :: i < k && IsWorker(nodes, i) && TrimmedAt(nodes, i) == s
  }

  /** Every group is in use and every used slot has a group, with two members if two workers share it. */
  ghost predicate Grouped(nodes: seq<Node>, k: nat, m: map<string, seq<string>>) {
    && (forall s :: s in m ==> |m[s]| >= 1 && UsedBefore(nodes, k, s))
    && (forall i :: i < k && IsWorker(nodes, i) ==> TrimmedAt(nodes, i) in m)
    && (forall i, j :: i < j < k && IsWorker(nodes, i) && IsWorker(nodes, j) ==>
          TrimmedAt(nodes, i) == TrimmedAt(nodes, j) ==> |m[TrimmedAt(nodes, i)]| >= 2)
  }

  lemma {:induction false} UsedLater(nodes: seq<Node>, p: nat, s: string)
    requires UsedBefore(nodes, p, s)
    ensures UsedBefore(nodes, p + 1, s)
  {
    var i :| i < p && IsWorker(nodes, i) && TrimmedAt(nodes, i) == s;
    assert i < p + 1 && IsWorker(nodes, i) && TrimmedAt(nodes, i) == s;
  }

  lemma {:induction false} GroupedNext(nodes: seq<Node>, p: nat, before: map<string, seq<string>>, ids: seq<string>)
    requires p < |nodes| && Grouped(nodes, p, before) && IsWorker(nodes, p)
    requires |ids| == 1 + if TrimmedAt(nodes, p) in before then |before[TrimmedAt(nodes, p)]| else 0
    ensures Grouped(nodes, p + 1, before[TrimmedAt(nodes, p) := ids])
  {
    var slot, k := TrimmedAt(nodes, p), p + 1;
    var m := before[slot := ids];
    forall s | s in m ensures |m[s]| >= 1 && UsedBefore(nodes, k, s) {
      if s == slot {
        assert p < k && IsWorker(nodes, p) && TrimmedAt(nodes, p) == s;
      } else {
        UsedLater(nodes, p, s);
      }
    }
    forall i, j | i < j < k && IsWorker(nodes, i) && IsWorker(nodes, j) && TrimmedAt(nodes, i) == TrimmedAt(nodes, j)
      ensures |m[TrimmedAt(nodes, i)]| >= 2
    {
      assert TrimmedAt(nodes, i) in before;
    }
  }

  lemma {:induction false} BySlotGrouped(nodes: seq<Node>, k: nat)
    requires k <= |nodes| && forall i :: 0 <= i < |nodes| ==> HasSlot(nodes[i])
    ensures Grouped(nodes, k, NodesBySlot(nodes, k))
  {
    if k > 0 {
      var p := k - 1;
      var before := NodesBySlot(nodes, p);
      BySlotGrouped(nodes, p);
      if IsWorker(nodes, p) {
        var slot := TrimmedAt(nodes, p);
        GroupedNext(nodes, p, before, (if slot in before then before[slot] else []) + [nodes[p].worker.id]);
      } else {
        GroupedSkip(nodes, p, before);
      }
    }
  }

  lemma {:induction false} GroupedSkip(nodes: seq<Node>, p: nat, m: map<string, seq<string>>)
    requires p < |nodes| && Grouped(nodes, p, m) && !IsWorker(nodes, p)
    ensures Grouped(nodes, p + 1, m)
  {
    forall s | s in m ensures UsedBefore(nodes, p + 1, s) {
      UsedLater(nodes, p, s);
    }
  }

  /** Workers of an injectable workflow have trimmed slots, all different, and exactly the bindings' slots. */
  ghost predicate SlotsMatch(nodes: seq<Node>, list: seq<Binding>) {
    && (forall i :: IsWorker(nodes, i) ==> Trimmed(SlotAt(nodes, i)) && nodes[i].worker.slot.Some? && HasSlot(nodes[i]))
    && (forall i, j :: i < j && IsWorker(nodes, i) && IsWorker(nodes, j) ==> SlotAt(nodes, i) != SlotAt(nodes, j))
    && (forall i :: IsWorker(nodes, i) ==> SlotAt(nodes, i) in BySlot(list, |list|))
    && (forall s :: s in BySlot(list, |list|) ==> exists i :: IsWorker(nodes, i) && SlotAt(nodes, i) == s)
  }

  /** A worker that finds its binding under its raw slot has a trimmed slot. */
  lemma {:induction false} RawSlotTrimmed(nodes: seq<Node>, list: seq<Binding>, m: map<string, seq<string>>, i: int)
    requires Grouped(nodes, |nodes|, m) && forall b :: 0 <= b < |list| ==> list[b].slot in m
    requires IsWorker(nodes, i) && SlotAt(nodes, i) in BySlot(list, |list|)
    ensures Trimmed(SlotAt(nodes, i)) && TrimmedAt(nodes, i) == SlotAt(nodes, i)
  {
    var s := SlotAt(nodes, i);
    BySlotKeyed(list, |list|);
    var b :| 0 <= b < |list| && list[b].slot == s;
    assert UsedBefore(nodes, |nodes|, s);
    var j :| j < |nodes| && IsWorker(nodes, j) && TrimmedAt(nodes, j) == s;
    TrimFacts(SlotAt(nodes, j));
    TrimFacts(s);
  }

  lemma {:induction false} InjectionImpliesSlotsMatch(providers: Providers, w: Workflow, list: seq<Binding>)
    requires Injected(providers, w, list).Ok?
    ensures UniqueSlots(list) && SlotsMatch(w.nodes, list)
  {
    var nodes, table := w.nodes, BySlot(list, |list|);
    var m := NodesBySlot(nodes, |nodes|);
    BySlotGrouped(nodes, |nodes|);
    BySlotKeyed(list, |list|);
    forall i | IsWorker(nodes, i)
      ensures HasSlot(nodes[i]) && nodes[i].worker.slot.Some? && SlotAt(nodes, i) in table
      ensures Trimmed(SlotAt(nodes, i)) && TrimmedAt(nodes, i) == SlotAt(nodes, i)
    {
      assert HasSlot(nodes[i]);
      assert InjectNode(providers, table, nodes[i]).Ok?;
      RawSlotTrimmed(nodes, list, m, i);
    }
    forall i, j | i < j && IsWorker(nodes, i) && IsWorker(nodes, j) ensures SlotAt(nodes, i) != SlotAt(nodes, j) {
      assert TrimmedAt(nodes, i) !in SharedSlots(m);
    }
    forall s | s in table ensures exists i :: IsWorker(nodes, i) && SlotAt(nodes, i) == s {
      var b :| 0 <= b < |list| && list[b].slot == s;
      assert UsedBefore(nodes, |nodes|, s);
      var i :| i < |nodes| && IsWorker(nodes, i) && TrimmedAt(nodes, i) == s;
      assert SlotAt(nodes, i) == s;
    }
  }

  lemma {:induction false} InjectedPointwise(providers: Providers, w: Workflow, list: seq<Binding>, x: Workflow, i: nat)
    requires Injected(providers, w, list) == Ok(x) && i < |w.nodes|
    ensures |x.nodes| == |w.nodes| && HasSlot(w.nodes[i])
    ensures InjectNode(providers, BySlot(list, |list|), w.nodes[i]) == Ok(x.nodes[i])
  {
    assert InjectNode(providers, BySlot(list, |list|), w.nodes[i]).Ok?;
  }

  // ---- Extraction undoes injection ----

  /** What a binding becomes when it goes through a worker and back. */
  function Normal(b: Binding): Binding {
    b.(agent := Trim(b.agent), model := NonBlank(b.model), permission := NonBlank(b.permission))
  }

  function NormalTable(list: seq<Binding>): map<string, Binding> {
    var table := BySlot(list, |list|);
    map s | s in table :: Normal(table[s])
  }

  function KeyAt(world: World, nodes: seq<Node>, i: int): string
    requires IsWorker(nodes, i)
  {
    BindingKey(world, i, nodes[i].worker)
  }

  /** The table files worker `i`'s own binding under its key, unless a binding was known for that key. */
  predicate FiledAt(world: World, nodes: seq<Node>, known: map<string, Binding>, t: map<string, Binding>, i: int)
    requires IsWorker(nodes, i)
  {
    var key := KeyAt(world, nodes, i);
    var b := Extracted(key, nodes[i].worker);
    if key in known then key in t && t[key] == known[key]
    else if b.Some? then key in t && t[key] == b.value
    else key !in t
  }

  ghost predicate FiledUpTo(
    world: World, nodes: seq<Node>, known: map<string, Binding>, t: map<string, Binding>, k: nat)
  {
    && (forall i :: i < k && IsWorker(nodes, i) ==> FiledAt(world, nodes, known, t, i))
    && (forall s :: s in known ==> s in t && t[s] == known[s])
    && (forall s :: s in t && s !in known ==> exists i :: i < k && IsWorker(nodes, i) && KeyAt(world, nodes, i) == s)
  }

  /** One more worker with a key of its own. */
  lemma {:induction false} FiledNext(
    world: World, nodes: seq<Node>, known: map<string, Binding>, before: map<string, Binding>, p: nat)
    requires IsWorker(nodes, p) && FiledUpTo(world, nodes, known, before, p)
    requires forall i :: i < p && IsWorker(nodes, i) ==> KeyAt(world, nodes, i) != KeyAt(world, nodes, p)
    ensures FiledUpTo(world, nodes, known, FileNode(world, before, p, nodes[p]), p + 1)
  {
    var key, t := KeyAt(world, nodes, p), FileNode(world, before, p, nodes[p]);
    assert key in before ==> key in known;
    forall i | i < p + 1 && IsWorker(nodes, i) ensures FiledAt(world, nodes, known, t, i) {
      if i < p {
        assert FiledAt(world, nodes, known, before, i);
      }
    }
    forall s | s in t && s !in known ensures exists i :: i < p + 1 && IsWorker(nodes, i) && KeyAt(world, nodes, i) == s {
      if s in before {
        var i :| i < p && IsWorker(nodes, i) && KeyAt(world, nodes, i) == s;
      } else {
        assert IsWorker(nodes, p) && KeyAt(world, nodes, p) == s;
      }
    }
  }

  /** Filing workers with different keys keeps the known bindings and adds each worker's own under a new key. */
  lemma {:induction false} FiledUnique(world: World, nodes: seq<Node>, known: map<string, Binding>, k: nat)
    requires k <= |nodes|
    requires forall i, j :: i < j && IsWorker(nodes, i) && IsWorker(nodes, j) ==>
      KeyAt(world, nodes, i) != KeyAt(world, nodes, j)
    ensures FiledUpTo(world, nodes, known, Filed(world, known, nodes, k), k)
  {
    if k > 0 {
      var p := k - 1;
      var before := Filed(world, known, nodes, p);
      FiledUnique(world, nodes, known, p);
      if IsWorker(nodes, p) {
        FiledNext(world, nodes, known, before, p);
      } else {
        FiledSkip(world, nodes, known, before, p);
      }
    }
  }

  lemma {:induction false} FiledSkip(
    world: World, nodes: seq<Node>, known: map<string, Binding>, t: map<string, Binding>, p: nat)
    requires !IsWorker(nodes, p) && FiledUpTo(world, nodes, known, t, p)
    ensures FiledUpTo(world, nodes, known, t, p + 1)
  {
    forall i | i < p + 1 && IsWorker(nodes, i) ensures FiledAt(world, nodes, known, t, i) {
      assert i < p;
    }
    forall s | s in t && s !in known ensures exists i :: i < p + 1 && IsWorker(nodes, i) && KeyAt(world, nodes, i) == s {
      var i :| i < p && IsWorker(nodes, i) && KeyAt(world, nodes, i) == s;
    }
  }

  /** Injecting and extracting files the normal form of every binding. */
  lemma {:induction false} InjectedTable(providers: Providers, world: World, w: Workflow, list: seq<Binding>)
    requires Injected(providers, w, list).Ok? && world.template.None?
    ensures var nodes := Injected(providers, w, list).value.nodes;
            Filed(world, map[], nodes, |nodes|) == NormalTable(list)
  {
    var table := BySlot(list, |list|);
    var nodes := Injected(providers, w, list).value.nodes;
    InjectionImpliesSlotsMatch(providers, w, list);
    forall i | IsWorker(nodes, i)
      ensures IsWorker(w.nodes, i) && KeyAt(world, nodes, i) == SlotAt(w.nodes, i) && SaysNormalAt(world, nodes, table, i)
    {
      InjectedAt(providers, world, w, list, i);
    }
    forall s | s in table ensures exists i :: IsWorker(nodes, i) && KeyAt(world, nodes, i) == s {
      var i :| IsWorker(w.nodes, i) && SlotAt(w.nodes, i) == s;
      WorkerStays(providers, w, list, i);
      assert KeyAt(world, nodes, i) == s;
    }
    FiledUnique(world, nodes, map[], |nodes|);
    FilesNormal(world, nodes, table, Filed(world, map[], nodes, |nodes|));
  }

  /** Every worker's own fields say the normal form of the binding under its key. */
  ghost predicate SaysNormal(world: World, nodes: seq<Node>, table: map<string, Binding>) {
    && (forall i :: IsWorker(nodes, i) ==> SaysNormalAt(world, nodes, table, i))
    && (forall s :: s in table ==> exists i :: IsWorker(nodes, i) && KeyAt(world, nodes, i) == s)
  }

  predicate SaysNormalAt(world: World, nodes: seq<Node>, table: map<string, Binding>, i: int)
    requires IsWorker(nodes, i)
  {
    var key := KeyAt(world, nodes, i);
    key in table && Extracted(key, nodes[i].worker) == Some(Normal(table[key]))
  }

  lemma {:induction false} NormalFiled(
    world: World, nodes: seq<Node>, table: map<string, Binding>, filed: map<string, Binding>, s: string)
    requires FiledUpTo(world, nodes, map[], filed, |nodes|) && SaysNormal(world, nodes, table) && s in table
    ensures s in filed && filed[s] == Normal(table[s])
  {
    var i :| IsWorker(nodes, i) && KeyAt(world, nodes, i) == s;
    assert SaysNormalAt(world, nodes, table, i) && FiledAt(world, nodes, map[], filed, i);
  }

  lemma {:induction false} FiledInTable(
    world: World, nodes: seq<Node>, table: map<string, Binding>, filed: map<string, Binding>, s: string)
    requires FiledUpTo(world, nodes, map[], filed, |nodes|) && SaysNormal(world, nodes, table) && s in filed
    ensures s in table
  {
    var i :| i < |nodes| && IsWorker(nodes, i) && KeyAt(world, nodes, i) == s;
    assert SaysNormalAt(world, nodes, table, i);
  }

  lemma {:induction false} FilesNormal(
    world: World, nodes: seq<Node>, table: map<string, Binding>, filed: map<string, Binding>)
    requires FiledUpTo(world, nodes, map[], filed, |nodes|) && SaysNormal(world, nodes, table)
    ensures filed == map s | s in table :: Normal(table[s])
  {
    forall s | s in table ensures s in filed && filed[s] == Normal(table[s]) {
      NormalFiled(world, nodes, table, filed, s);
    }
    forall s | s in filed ensures s in table {
      FiledInTable(world, nodes, table, filed, s);
    }
  }

  lemma {:induction false} WorkerStays(providers: Providers, w: Workflow, list: seq<Binding>, i: int)
    requires Injected(providers, w, list).Ok? && IsWorker(w.nodes, i)
    ensures IsWorker(Injected(providers, w, list).value.nodes, i)
  {
    assert InjectNode(providers, BySlot(list, |list|), w.nodes[i]).Ok?;
  }

  lemma {:induction false} InjectedAt(providers: Providers, world: World, w: Workflow, list: seq<Binding>, i: int)
    requires Injected(providers, w, list).Ok? && world.template.None?
    requires IsWorker(Injected(providers, w, list).value.nodes, i)
    ensures var n, slot := Injected(providers, w, list).value.nodes[i], SlotAt(Injected(providers, w, list).value.nodes, i);
      && IsWorker(w.nodes, i) && slot == SlotAt(w.nodes, i) && slot in BySlot(list, |list|)
      && KeyAt(world, Injected(providers, w, list).value.nodes, i) == slot
      && Extracted(slot, n.worker) == Some(Normal(BySlot(list, |list|)[slot]))
  {
    var table := BySlot(list, |list|);
    InjectionImpliesSlotsMatch(providers, w, list);
    BySlotKeyed(list, |list|);
    assert InjectNode(providers, table, w.nodes[i]).Ok?;
    var slot := SlotAt(w.nodes, i);
    TrimFacts(slot);
    TrimFacts(table[slot].agent);
  }

  /** The binding list is in slot order and every binding is already normal. */
  ghost predicate Canonical(list: seq<Binding>) {
    && Sorted(Slots(list))
    && forall i :: 0 <= i < |list| ==> NormalBinding(list[i])
  }

  /** Trimmed agent id; model and permission ids not blank where present. */
  predicate NormalBinding(b: Binding) {
    && Trimmed(b.agent)
    && (b.model.Some? ==> !Blank(b.model.value))
    && (b.permission.Some? ==> !Blank(b.permission.value))
  }

  lemma {:induction false} NormalIff(b: Binding)
    ensures Normal(b) == b <==> NormalBinding(b)
  {
    TrimFacts(b.agent);
  }

  function Slots(list: seq<Binding>): seq<string> {
    seq(|list|, i requires 0 <= i < |list| => list[i].slot)
  }

  lemma {:induction false} SlotsAreKeys(list: seq<Binding>)
    ensures forall s :: s in Slots(list) <==> s in NormalTable(list)
  {
    BySlotKeyed(list, |list|);
    forall s ensures s in Slots(list) <==> s in NormalTable(list) {
      if s in Slots(list) {
        var i :| 0 <= i < |list| && Slots(list)[i] == s;
        assert list[i].slot == s;
      }
      if s in NormalTable(list) {
        var i :| 0 <= i < |list| && list[i].slot == s;
        assert Slots(list)[i] == s;
      }
    }
  }

  lemma {:induction false} NormalAt(list: seq<Binding>, i: nat)
    requires UniqueSlots(list) && i < |list|
    ensures list[i].slot in NormalTable(list) && NormalTable(list)[list[i].slot] == Normal(list[i])
    ensures Normal(list[i]) == list[i] <==> NormalBinding(list[i])
  {
    BySlotAt(list, |list|);
    NormalIff(list[i]);
  }

  lemma {:induction false} NormalListCanonical(list: seq<Binding>)
    requires UniqueSlots(list) && Listed(NormalTable(list)) == list
    ensures Canonical(list)
  {
    var normal := NormalTable(list);
    BySlotKeyed(list, |list|);
    ListedFacts(normal);
    assert Slots(list) == SortedKeys(normal.Keys);
    ListedNormal(list, normal);
  }

  lemma {:induction false} ListedNormal(list: seq<Binding>, normal: map<string, Binding>)
    requires UniqueSlots(list) && normal == NormalTable(list) && Listed(normal) == list
    requires Slots(list) == SortedKeys(normal.Keys)
    ensures forall i :: 0 <= i < |list| ==> NormalBinding(list[i])
  {
    forall i | 0 <= i < |list| ensures NormalBinding(list[i]) {
      NormalAt(list, i);
      assert Slots(list)[i] == list[i].slot;
    }
  }

  lemma {:induction false} CanonicalListNormal(list: seq<Binding>)
    requires UniqueSlots(list) && Canonical(list)
    ensures Listed(NormalTable(list)) == list
  {
    var normal := NormalTable(list);
    var keys := SortedKeys(normal.Keys);
    SlotsAreKeys(list);
    SortedUnique(Slots(list), keys);
    forall i | 0 <= i < |list| ensures Listed(normal)[i] == list[i] {
      NormalAt(list, i);
      assert keys[i] == Slots(list)[i];
    }
  }

  /** The normal list equals the list exactly when the list is canonical. */
  lemma {:induction false} ListedNormalIff(list: seq<Binding>)
    requires UniqueSlots(list)
    ensures Listed(NormalTable(list)) == list <==> Canonical(list)
  {
    if Canonical(list) {
      CanonicalListNormal(list);
    } else if Listed(NormalTable(list)) == list {
      NormalListCanonical(list);
    }
  }

  /** Workflow after a round trip: every execution field is gone, everything else is as before. */
  function Cleared(w: Workflow): Workflow {
    w.(nodes := seq(|w.nodes|, i requires 0 <= i < |w.nodes| =>
         if w.nodes[i].WorkerNode? then WorkerNode(ClearedWorker(w.nodes[i].worker)) else w.nodes[i]))
  }

  lemma {:induction false} InjectedNodesMigrate(providers: Providers, world: World, w: Workflow, list: seq<Binding>)
    requires Injected(providers, w, list).Ok? && world.template.None?
    ensures var x := Injected(providers, w, list).value;
      && MigratedNodes(world, x.nodes) == Cleared(w).nodes
      && Strip(x) == Strip(w)
      && NormalTable(list).Keys <= ActiveSlots(Cleared(w).nodes)
  {
    var x, table := Injected(providers, w, list).value, BySlot(list, |list|);
    InjectionImpliesSlotsMatch(providers, w, list);
    forall i | 0 <= i < |x.nodes|
      ensures MigratedNode(world, i, x.nodes[i]) == Cleared(w).nodes[i] && StripNode(x.nodes[i]) == StripNode(w.nodes[i])
    {
      assert InjectNode(providers, table, w.nodes[i]).Ok?;
      assert HasSlot(w.nodes[i]);
    }
    assert Strip(x).nodes == Strip(w).nodes;
    forall s | s in table ensures s in ActiveSlots(Cleared(w).nodes) {
      var i :| IsWorker(w.nodes, i) && SlotAt(w.nodes, i) == s;
      assert Cleared(w).nodes[i].worker.slot == Some(s);
    }
  }

  /**
   Extraction undoes injection. Whenever injection succeeds, migrating its result from no bindings gives
   back the workflow exactly if it carried no execution fields, and the binding list exactly if it was
   canonical; the definition that the revision covers is the same throughout.
   */
  lemma {:induction false} ExtractionUndoesInjectionIff(providers: Providers, world: World, w: Workflow, list: seq<Binding>,
                                     definition: string, revision: nat)
    requires Injected(providers, w, list).Ok? && world.template.None?
    ensures var x := Injected(providers, w, list).value;
            var back := Migrated(world, Authoring(x, Bindings(definition, revision, [])));
      && (back.workflow == w <==> forall i :: 0 <= i < |w.nodes| ==> Clear(w.nodes[i]))
      && (back.bindings.list == list <==> Canonical(list))
      && Strip(x) == Strip(w) && Strip(back.workflow) == Strip(w)
  {
    var x := Injected(providers, w, list).value;
    var a := Authoring(x, Bindings(definition, revision, []));
    InjectedTable(providers, world, w, list);
    InjectedNodesMigrate(providers, world, w, list);
    InjectionImpliesSlotsMatch(providers, w, list);
    assert Retained(NormalTable(list), ActiveSlots(Cleared(w).nodes)) == NormalTable(list);
    assert NextBindings(world, a) == Listed(NormalTable(list));
    ListedNormalIff(list);
    MigrationKeepsDefinition(world, a);
    var back := Migrated(world, a);
    assert back.workflow == Cleared(w);
    assert (forall i :: 0 <= i < |w.nodes| ==> Clear(w.nodes[i])) ==> Cleared(w).nodes == w.nodes;
    if Cleared(w) == w {
      forall i | 0 <= i < |w.nodes| ensures Clear(w.nodes[i]) {
        assert w.nodes[i] == Cleared(w).nodes[i];
      }
    }
  }

  // ---- Injection undoes extraction ----

  /**
   The binding a worker runs with: the one that was known for its key, or else what its own fields say,
   trimmed, with blank model and permission ids dropped. `None` if there is neither.
   */
  function Effective(world: World, known: map<string, Binding>, i: nat, w: Worker): Option<Binding> {
    var key := BindingKey(world, i, w);
    if key in known then Some(known[key]) else Extracted(key, w)
  }

  /** A worker as it runs with a binding, under the slot that the migration gives it. */
  function Runnable(world: World, i: nat, w: Worker, b: Binding): Worker {
    InjectedWorker(w.(slot := Some(NewSlot(world, i, w))), b)
  }

  lemma {:induction false} ExtractedKeys(providers: Providers, world: World, w: Workflow, list: seq<Binding>, i: int)
    requires Injected(providers, w.(nodes := MigratedNodes(world, w.nodes)), list).Ok? && IsWorker(w.nodes, i)
    ensures IsWorker(MigratedNodes(world, w.nodes), i)
    ensures KeyAt(world, w.nodes, i) == SlotAt(MigratedNodes(world, w.nodes), i)
    ensures SlotAt(MigratedNodes(world, w.nodes), i) in BySlot(list, |list|)
  {
    var m := w.(nodes := MigratedNodes(world, w.nodes));
    InjectionImpliesSlotsMatch(providers, m, list);
    assert IsWorker(m.nodes, i);
    TrimFacts(SlotAt(m.nodes, i));
  }

  /**
   Injection undoes extraction, whatever bindings were known and whether or not the workflow belongs to a
   template. If what a migration leaves can be injected, every worker had a known binding or named an
   agent, and runs with exactly that binding's fields; all its other fields are its own.
   */
  lemma {:induction false} InjectionUndoesExtraction(
    providers: Providers, world: World, a: Authoring, m: Authoring, x: Workflow, i: int)
    requires IsWorker(a.workflow.nodes, i) && m == Migrated(world, a)
    requires Injected(providers, m.workflow, m.bindings.list) == Ok(x)
    ensures |x.nodes| == |a.workflow.nodes|
    ensures var worker := a.workflow.nodes[i].worker;
      var b := Effective(world, BySlot(a.bindings.list, |a.bindings.list|), i, worker);
      b.Some? && x.nodes[i] == WorkerNode(Runnable(world, i, worker, b.value))
  {
    var w, list, kept := a.workflow, m.bindings.list, Kept(world, a);
    var known := BySlot(a.bindings.list, |a.bindings.list|);
    KeptKeyed(world, a);
    ListedReadsBack(kept);
    assert m.workflow == w.(nodes := MigratedNodes(world, w.nodes));
    forall j | IsWorker(w.nodes, j)
      ensures IsWorker(m.workflow.nodes, j) && KeyAt(world, w.nodes, j) == SlotAt(m.workflow.nodes, j)
    {
      ExtractedKeys(providers, world, w, list, j);
    }
    ExtractedKeys(providers, world, w, list, i);
    InjectionImpliesSlotsMatch(providers, m.workflow, list);
    FiledUnique(world, w.nodes, known, |w.nodes|);
    RestoredWorker(providers, world, w, known, kept, m.workflow.nodes[i], i);
    InjectedPointwise(providers, m.workflow, list, x, i);
  }

  lemma {:induction false} RestoredWorker(
    providers: Providers, world: World, w: Workflow, known: map<string, Binding>, kept: map<string, Binding>, n: Node, i: int)
    requires IsWorker(w.nodes, i) && n == MigratedNode(world, i, w.nodes[i]) && HasSlot(n)
    requires KeyAt(world, w.nodes, i) == NewSlot(world, i, w.nodes[i].worker)
    requires var filed := Filed(world, known, w.nodes, |w.nodes|);
      && FiledAt(world, w.nodes, known, filed, i)
      && NewSlot(world, i, w.nodes[i].worker) in kept
      && forall k :: k in kept ==> k in filed && kept[k] == filed[k]
    ensures Effective(world, known, i, w.nodes[i].worker).Some?
    ensures InjectNode(providers, kept, n).Ok? ==>
            InjectNode(providers, kept, n).value ==
            WorkerNode(Runnable(world, i, w.nodes[i].worker, Effective(world, known, i, w.nodes[i].worker).value))
  {
  }
}
