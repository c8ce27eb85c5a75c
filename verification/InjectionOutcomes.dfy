/**
 When injection succeeds and with which error it fails, said about workers, bindings and providers alone.
 */
module InjectionOutcomes {
  import opened Wrappers
  import opened Text
  import opened Ordered
  import opened WorkflowBindings
  import opened BindingTheorems
  import opened WorkflowInjection

  // ---- One binding ----

  /** The agent is a well-formed id of a managed agent that diagnostics found available. */
  ghost predicate AgentReady(providers: Providers, b: Binding) {
    var id := Trim(b.agent);
    && id != "" && (forall c :: c in id ==> 'a' <= c <= 'z' || '0' <= c <= '9' || c == '-')
    && id in providers.managed
    && b.agent in providers.diagnostics && providers.diagnostics[b.agent].available
  }

  ghost predicate ModelOffered(d: Diagnostic, b: Binding) {
    b.model.Some? ==> b.model.value in d.models
  }

  ghost predicate PermissionOffered(d: Diagnostic, b: Binding) {
    b.permission.Some? ==> b.permission.value in d.modes
  }

  ghost predicate OptionOffered(d: Diagnostic, b: Binding, option: string)
    requires option in b.options
  {
    (option, b.options[option]) in d.options
  }

  /** Everything the binding asks for is offered by its agent. */
  ghost predicate Usable(providers: Providers, b: Binding) {
    && AgentReady(providers, b)
    && var d := providers.diagnostics[b.agent];
      && ModelOffered(d, b) && PermissionOffered(d, b) && forall o :: o in b.options ==> OptionOffered(d, b, o)
  }

  /** The first thing that is wrong with the binding: agent, model, permission, then the options in their order. */
  ghost predicate Complaint(providers: Providers, slot: string, b: Binding, e: Error) {
    if !AgentReady(providers, b) then e == AgentUnavailable(slot, b.agent)
    else
      var d := providers.diagnostics[b.agent];
      match e
      case ModelUnsupported(s, agent, model) =>
        s == slot && agent == b.agent && b.model == Some(model) && model !in d.models
      case PermissionUnsupported(s, agent, permission) =>
        s == slot && agent == b.agent && ModelOffered(d, b) && b.permission == Some(permission) && permission !in d.modes
      case OptionUnsupported(s, agent, option, value) =>
        && s == slot && agent == b.agent && ModelOffered(d, b) && PermissionOffered(d, b)
        && option in b.options && b.options[option] == value && (option, value) !in d.options
        && forall other :: other in b.options && other != option && !OptionOffered(d, b, other) ==> Less(option, other)
      case _ => false
  }

  lemma {:induction false} AgentReadyIff(providers: Providers, b: Binding)
    ensures AgentReady(providers, b) <==>
      var agent := ParseAgent(b.agent);
      && agent.Some? && agent.value in providers.managed
      && b.agent in providers.diagnostics && providers.diagnostics[b.agent].available
  {
    var id := Trim(b.agent);
    assert forall i :: 0 <= i < |id| ==> id[i] in id;
  }

  lemma {:induction false} LeastRefused(d: Diagnostic, b: Binding, option: string)
    requires option in b.options
    ensures var refused := RefusedOptions(b.options, d.options);
      (!OptionOffered(d, b, option) && forall other ::
        other in b.options && other != option && !OptionOffered(d, b, other) ==> Less(option, other)) <==>
      refused != {} && Least(refused) == option
  {
    var refused := RefusedOptions(b.options, d.options);
    assert forall o :: o in refused <==> o in b.options && !OptionOffered(d, b, o);
    LeastUnique(refused);
    if !OptionOffered(d, b, option) && forall other ::
      other in b.options && other != option && !OptionOffered(d, b, other) ==> Less(option, other)
    {
      assert IsLeast(option, refused);
    }
  }

  /** A binding is refused with exactly the first complaint, and accepted exactly if there is none. */
  lemma {:induction false} RefusalIff(providers: Providers, slot: string, b: Binding, e: Error)
    ensures Refusal(providers, slot, b) == Some(e) <==> Complaint(providers, slot, b, e)
    ensures Refusal(providers, slot, b).None? <==> Usable(providers, b)
  {
    AgentReadyIff(providers, b);
    if AgentReady(providers, b) {
      var d := providers.diagnostics[b.agent];
      var refused := RefusedOptions(b.options, d.options);
      assert forall o :: o in refused <==> o in b.options && !OptionOffered(d, b, o);
      if e.OptionUnsupported? && e.option in b.options {
        LeastRefused(d, b, e.option);
      }
      if refused != {} {
        LeastRefused(d, b, Least(refused));
      }
    }
  }

  // ---- One worker ----

  ghost predicate Bound(list: seq<Binding>, slot: string) {
    exists b :: b in list && b.slot == slot
  }

  /** What is wrong with a worker: no binding for its slot as it stands, or a binding that is refused. */
  ghost predicate Trouble(providers: Providers, list: seq<Binding>, w: Worker, e: Error)
    requires w.slot.Some?
  {
    var slot := w.slot.value;
    if !Bound(list, slot) then e == AgentRequired(slot, w.id)
    else exists b :: b in list && b.slot == slot && Complaint(providers, slot, b, e)
  }

  ghost predicate Ready(providers: Providers, list: seq<Binding>, w: Worker)
    requires w.slot.Some?
  {
    exists b :: b in list && b.slot == w.slot.value && Usable(providers, b)
  }

  /** The worker with the execution fields of the binding and its own everything else. */
  function Running(w: Worker, b: Binding): Worker {
    Worker(w.id, w.slot, Some(b.agent), b.model, b.permission, b.options, w.rest)
  }

  lemma {:induction false} TableIs(list: seq<Binding>, slot: string)
    requires UniqueSlots(list)
    ensures slot in BySlot(list, |list|) <==> Bound(list, slot)
    ensures forall b :: b in list && b.slot == slot ==> slot in BySlot(list, |list|) && BySlot(list, |list|)[slot] == b
  {
    BySlotKeyed(list, |list|);
    BySlotAt(list, |list|);
    forall b | b in list && b.slot == slot ensures slot in BySlot(list, |list|) && BySlot(list, |list|)[slot] == b {
      var i :| 0 <= i < |list| && list[i] == b;
    }
  }

  lemma {:induction false} WorkerOutcome(providers: Providers, list: seq<Binding>, w: Worker, e: Error)
    requires UniqueSlots(list) && HasSlot(WorkerNode(w))
    ensures w.slot.Some?
    ensures var r := InjectNode(providers, BySlot(list, |list|), WorkerNode(w));
      && (r == Err(e) <==> Trouble(providers, list, w, e))
      && (r.Ok? <==> Ready(providers, list, w))
      && (r.Ok? ==> forall b :: b in list && b.slot == w.slot.value ==> r.value == WorkerNode(Running(w, b)))
  {
    var slot := w.slot.value;
    TableIs(list, slot);
    if Bound(list, slot) {
      var b :| b in list && b.slot == slot;
      RefusalIff(providers, slot, b, e);
    }
  }

  // ---- The slots of the workflow ----

  ghost predicate SlotGiven(n: Node) {
    n.WorkerNode? ==> n.worker.slot.Some? && !Blank(n.worker.slot.value)
  }

  ghost predicate AllSlotsGiven(nodes: seq<Node>) {
    forall i :: 0 <= i < |nodes| ==> SlotGiven(nodes[i])
  }

  /** Worker `i` uses the slot, once white space is trimmed. */
  ghost predicate Uses(nodes: seq<Node>, i: int, slot: string) {
    0 <= i < |nodes| && nodes[i].WorkerNode? && nodes[i].worker.slot.Some? && Trim(nodes[i].worker.slot.value) == slot
  }

  ghost predicate Used(nodes: seq<Node>, slot: string) {
    exists i :: Uses(nodes, i, slot)
  }

  ghost predicate Shared(nodes: seq<Node>, slot: string) {
    exists i, j :: i < j && Uses(nodes, i, slot) && Uses(nodes, j, slot)
  }

  /** The ids of the first `k` nodes' workers that use the slot, in their order. */
  ghost function Users(nodes: seq<Node>, k: nat, slot: string): seq<string>
    requires k <= |nodes|
  {
    if k == 0 then [] else Users(nodes, k - 1, slot) + if Uses(nodes, k - 1, slot) then [nodes[k - 1].worker.id] else []
  }

  lemma {:induction false} GroupIs(nodes: seq<Node>, k: nat, slot: string)
    requires k <= |nodes| && AllSlotsGiven(nodes)
    ensures var m := NodesBySlot(nodes, k);
      (slot in m <==> Users(nodes, k, slot) != []) && (slot in m ==> m[slot] == Users(nodes, k, slot))
  {
    if k > 0 {
      GroupIs(nodes, k - 1, slot);
      assert SlotGiven(nodes[k - 1]);
      assert Users(nodes, k - 1, slot) + [] == Users(nodes, k - 1, slot);
    }
  }

  lemma {:induction false} OneUser(nodes: seq<Node>, k: nat, slot: string)
    requires k <= |nodes|
    ensures |Users(nodes, k, slot)| >= 1 <==> exists i :: i < k && Uses(nodes, i, slot)
  {
    if k > 0 {
      OneUser(nodes, k - 1, slot);
    }
  }

  lemma {:induction false} TwoUsers(nodes: seq<Node>, k: nat, slot: string)
    requires k <= |nodes|
    ensures |Users(nodes, k, slot)| >= 2 <==> exists i, j :: i < j < k && Uses(nodes, i, slot) && Uses(nodes, j, slot)
  {
    if k > 0 {
      var p := k - 1;
      OneUser(nodes, p, slot);
      TwoUsers(nodes, p, slot);
      if Uses(nodes, p, slot) && |Users(nodes, p, slot)| >= 1 {
        var i :| i < p && Uses(nodes, i, slot);
        assert i < p < k && Uses(nodes, i, slot) && Uses(nodes, p, slot);
      }
    }
  }

  lemma {:induction false} SlotGroups(nodes: seq<Node>, slot: string)
    requires AllSlotsGiven(nodes)
    ensures var m := NodesBySlot(nodes, |nodes|);
      && (slot in m <==> Used(nodes, slot))
      && (slot in SharedSlots(m) <==> Shared(nodes, slot))
      && (slot in m ==> m[slot] == Users(nodes, |nodes|, slot))
  {
    GroupIs(nodes, |nodes|, slot);
    OneUser(nodes, |nodes|, slot);
    TwoUsers(nodes, |nodes|, slot);
    if Used(nodes, slot) {
      var i :| Uses(nodes, i, slot);
      assert i < |nodes| && Uses(nodes, i, slot);
    }
    if Shared(nodes, slot) {
      var i, j :| i < j && Uses(nodes, i, slot) && Uses(nodes, j, slot);
      assert i < j < |nodes| && Uses(nodes, i, slot) && Uses(nodes, j, slot);
    }
  }

  // ---- The first failure of each check ----

  /** Binding `j` repeats a slot, and no earlier binding does. */
  ghost predicate FirstRepeat(list: seq<Binding>, j: nat) {
    && j < |list| && (exists i :: 0 <= i < j && list[i].slot == list[j].slot)
    && forall a, b :: 0 <= a < b < j ==> list[a].slot != list[b].slot
  }

  lemma {:induction false} DuplicateIs(list: seq<Binding>, j: nat, k: nat)
    requires FirstRepeat(list, j) && j < k <= |list|
    ensures DuplicateBinding(list, k) == Some(list[j].slot)
  {
    if k > j + 1 {
      DuplicateIs(list, j, k - 1);
    }
  }

  lemma {:induction false} RepeatExists(list: seq<Binding>, k: nat)
    requires k <= |list| && DuplicateBinding(list, k).Some?
    ensures exists j: nat :: FirstRepeat(list, j)
  {
    if DuplicateBinding(list, k - 1).Some? {
      RepeatExists(list, k - 1);
    } else {
      assert FirstRepeat(list, k - 1);
    }
  }

  ghost predicate FirstWithoutSlot(nodes: seq<Node>, j: nat) {
    j < |nodes| && !SlotGiven(nodes[j]) && forall i :: 0 <= i < j ==> SlotGiven(nodes[i])
  }

  lemma {:induction false} MissingIs(nodes: seq<Node>, j: nat, k: nat)
    requires FirstWithoutSlot(nodes, j) && j < k <= |nodes|
    ensures MissingSlot(nodes, k) == Some(nodes[j].worker.id)
  {
    if k > j + 1 {
      MissingIs(nodes, j, k - 1);
    } else {
      assert forall i :: 0 <= i < j ==> SlotGiven(nodes[i]) && HasSlot(nodes[i]);
    }
  }

  lemma {:induction false} MissingExists(nodes: seq<Node>, k: nat)
    requires k <= |nodes| && MissingSlot(nodes, k).Some?
    ensures exists j: nat :: FirstWithoutSlot(nodes, j)
  {
    if MissingSlot(nodes, k - 1).Some? {
      MissingExists(nodes, k - 1);
    } else {
      assert forall i :: 0 <= i < k - 1 ==> HasSlot(nodes[i]) && SlotGiven(nodes[i]);
      assert FirstWithoutSlot(nodes, k - 1);
    }
  }

  /** The least slot that two workers share. */
  ghost predicate LeastShared(nodes: seq<Node>, slot: string) {
    Shared(nodes, slot) && forall other :: Shared(nodes, other) && other != slot ==> Less(slot, other)
  }

  ghost predicate SlotsDiffer(nodes: seq<Node>) {
    forall slot :: !Shared(nodes, slot)
  }

  ghost predicate FirstUnused(nodes: seq<Node>, list: seq<Binding>, j: nat) {
    j < |list| && !Used(nodes, list[j].slot) && forall i :: 0 <= i < j ==> Used(nodes, list[i].slot)
  }

  lemma {:induction false} UnknownIs(nodes: seq<Node>, list: seq<Binding>, m: map<string, seq<string>>, j: nat, k: nat)
    requires forall s :: s in m <==> Used(nodes, s)
    requires FirstUnused(nodes, list, j) && j < k <= |list|
    ensures UnknownBinding(list, m, k) == Some(list[j].slot)
  {
    if k > j + 1 {
      UnknownIs(nodes, list, m, j, k - 1);
    }
  }

  lemma {:induction false} UnusedExists(nodes: seq<Node>, list: seq<Binding>, m: map<string, seq<string>>, k: nat)
    requires forall s :: s in m <==> Used(nodes, s)
    requires k <= |list| && UnknownBinding(list, m, k).Some?
    ensures exists j: nat :: FirstUnused(nodes, list, j)
  {
    if UnknownBinding(list, m, k - 1).Some? {
      UnusedExists(nodes, list, m, k - 1);
    } else {
      assert FirstUnused(nodes, list, k - 1);
    }
  }

  ghost predicate FirstTrouble(providers: Providers, nodes: seq<Node>, list: seq<Binding>, i: nat, e: Error)
    requires AllSlotsGiven(nodes)
  {
    && i < |nodes| && nodes[i].WorkerNode? && (assert SlotGiven(nodes[i]); Trouble(providers, list, nodes[i].worker, e))
    && forall k :: 0 <= k < i && nodes[k].WorkerNode? ==>
         (assert SlotGiven(nodes[k]); Ready(providers, list, nodes[k].worker))
  }

  lemma {:induction false} NodeOutcome(providers: Providers, nodes: seq<Node>, list: seq<Binding>, i: nat, e: Error)
    requires UniqueSlots(list) && AllSlotsGiven(nodes) && i < |nodes|
    ensures HasSlot(nodes[i]) && SlotGiven(nodes[i])
    ensures var r := InjectNode(providers, BySlot(list, |list|), nodes[i]);
      if nodes[i].AiDynamic? then r == Ok(nodes[i])
      else (r == Err(e) <==> Trouble(providers, list, nodes[i].worker, e)) && (r.Ok? <==> Ready(providers, list, nodes[i].worker))
  {
    assert SlotGiven(nodes[i]);
    if nodes[i].WorkerNode? {
      WorkerOutcome(providers, list, nodes[i].worker, e);
    }
  }

  lemma {:induction false} TroubleIs(
    providers: Providers, nodes: seq<Node>, list: seq<Binding>, i: nat, e: Error, k: nat)
    requires UniqueSlots(list) && AllSlotsGiven(nodes) && FirstTrouble(providers, nodes, list, i, e) && i < k <= |nodes|
    ensures forall n :: 0 <= n < |nodes| ==> HasSlot(nodes[n])
    ensures InjectError(providers, BySlot(list, |list|), nodes, k) == Some(e)
  {
    forall n | 0 <= n < |nodes| ensures HasSlot(nodes[n]) {
      assert SlotGiven(nodes[n]);
    }
    if k > i + 1 {
      TroubleIs(providers, nodes, list, i, e, k - 1);
    } else {
      forall n | 0 <= n < i ensures InjectNode(providers, BySlot(list, |list|), nodes[n]).Ok? {
        NodeOutcome(providers, nodes, list, n, e);
      }
      NodeOutcome(providers, nodes, list, i, e);
    }
  }

  lemma {:induction false} TroubleExists(providers: Providers, nodes: seq<Node>, list: seq<Binding>, k: nat, e: Error)
    requires UniqueSlots(list) && AllSlotsGiven(nodes) && k <= |nodes|
    requires forall n :: 0 <= n < |nodes| ==> HasSlot(nodes[n])
    requires InjectError(providers, BySlot(list, |list|), nodes, k) == Some(e)
    ensures exists i: nat :: FirstTrouble(providers, nodes, list, i, e)
  {
    if InjectError(providers, BySlot(list, |list|), nodes, k - 1).Some? {
      TroubleExists(providers, nodes, list, k - 1, e);
    } else {
      forall n | 0 <= n < k - 1 && nodes[n].WorkerNode?
        ensures SlotGiven(nodes[n]) && Ready(providers, list, nodes[n].worker)
      {
        NodeOutcome(providers, nodes, list, n, e);
      }
      NodeOutcome(providers, nodes, list, k - 1, e);
      assert FirstTrouble(providers, nodes, list, k - 1, e);
    }
  }

  // ---- The outcome ----

  /** Every check before the workers passes. */
  ghost predicate SlotsInOrder(nodes: seq<Node>, list: seq<Binding>) {
    && UniqueSlots(list) && AllSlotsGiven(nodes) && SlotsDiffer(nodes)
    && forall b :: b in list ==> Used(nodes, b.slot)
  }

  /** The condition of each error; the earlier checks have passed. */
  ghost predicate Fails(providers: Providers, nodes: seq<Node>, list: seq<Binding>, e: Error) {
    match e
    case BindingDuplicate(slot) => exists j: nat :: FirstRepeat(list, j) && list[j].slot == slot
    case SlotRequired(id) =>
      UniqueSlots(list) && exists j: nat :: FirstWithoutSlot(nodes, j) && nodes[j].worker.id == id
    case SlotDuplicate(slot, ids) =>
      UniqueSlots(list) && AllSlotsGiven(nodes) && LeastShared(nodes, slot) && ids == Users(nodes, |nodes|, slot)
    case SlotNotFound(slot) =>
      && UniqueSlots(list) && AllSlotsGiven(nodes) && SlotsDiffer(nodes)
      && exists j: nat :: FirstUnused(nodes, list, j) && list[j].slot == slot
    case _ => SlotsInOrder(nodes, list) && exists i: nat :: FirstTrouble(providers, nodes, list, i, e)
  }

  /** The checks of bindings and slots pass exactly if the slots are in order, and otherwise decide the error. */
  lemma {:induction false} EarlyOutcome(providers: Providers, w: Workflow, list: seq<Binding>, e: Error)
    requires !SlotsInOrder(w.nodes, list)
    ensures Injected(providers, w, list) == Err(e) <==> Fails(providers, w.nodes, list, e)
    ensures Injected(providers, w, list).Err?
  {
    var nodes := w.nodes;
    if !UniqueSlots(list) {
      RepeatExists(list, |list|);
      forall j: nat | FirstRepeat(list, j) ensures DuplicateBinding(list, |list|) == Some(list[j].slot) {
        DuplicateIs(list, j, |list|);
      }
    } else if !AllSlotsGiven(nodes) {
      MissingOutcome(nodes);
    } else if !SlotsDiffer(nodes) {
      SharedFails(providers, w, list, e);
    } else {
      UnusedFails(providers, w, list, e);
    }
  }

  lemma {:induction false} MissingOutcome(nodes: seq<Node>)
    ensures MissingSlot(nodes, |nodes|).None? <==> AllSlotsGiven(nodes)
    ensures MissingSlot(nodes, |nodes|).Some? ==> exists j: nat :: FirstWithoutSlot(nodes, j)
    ensures forall j: nat :: FirstWithoutSlot(nodes, j) ==> MissingSlot(nodes, |nodes|) == Some(nodes[j].worker.id)
  {
    assert forall i :: 0 <= i < |nodes| ==> (HasSlot(nodes[i]) <==> SlotGiven(nodes[i]));
    if MissingSlot(nodes, |nodes|).Some? {
      MissingExists(nodes, |nodes|);
    }
    forall j: nat | FirstWithoutSlot(nodes, j) ensures MissingSlot(nodes, |nodes|) == Some(nodes[j].worker.id) {
      MissingIs(nodes, j, |nodes|);
    }
  }

  lemma {:induction false} SharedOutcome(nodes: seq<Node>, slot: string)
    requires AllSlotsGiven(nodes)
    ensures var shared := SharedSlots(NodesBySlot(nodes, |nodes|));
      && (shared == {} <==> SlotsDiffer(nodes))
      && (shared != {} && Least(shared) == slot <==> LeastShared(nodes, slot))
  {
    var shared := SharedSlots(NodesBySlot(nodes, |nodes|));
    forall s ensures s in shared <==> Shared(nodes, s) {
      SlotGroups(nodes, s);
    }
    LeastUnique(shared);
    if LeastShared(nodes, slot) {
      assert IsLeast(slot, shared);
    }
  }

  lemma {:induction false} UnknownOutcome(nodes: seq<Node>, list: seq<Binding>)
    requires AllSlotsGiven(nodes)
    ensures var unknown := UnknownBinding(list, NodesBySlot(nodes, |nodes|), |list|);
      && (unknown.None? <==> forall b :: b in list ==> Used(nodes, b.slot))
      && (unknown.Some? ==> exists j: nat :: FirstUnused(nodes, list, j))
      && forall j: nat :: FirstUnused(nodes, list, j) ==> unknown == Some(list[j].slot)
  {
    var m := NodesBySlot(nodes, |nodes|);
    forall s ensures s in m <==> Used(nodes, s) {
      SlotGroups(nodes, s);
    }
    if UnknownBinding(list, m, |list|).Some? {
      UnusedExists(nodes, list, m, |list|);
    }
    forall j: nat | FirstUnused(nodes, list, j) ensures UnknownBinding(list, m, |list|) == Some(list[j].slot) {
      UnknownIs(nodes, list, m, j, |list|);
    }
  }

  lemma {:induction false} SharedFails(providers: Providers, w: Workflow, list: seq<Binding>, e: Error)
    requires UniqueSlots(list) && AllSlotsGiven(w.nodes) && !SlotsDiffer(w.nodes)
    ensures Injected(providers, w, list) == Err(e) <==> Fails(providers, w.nodes, list, e)
    ensures Injected(providers, w, list).Err?
  {
    var nodes := w.nodes;
    var shared := SharedSlots(NodesBySlot(nodes, |nodes|));
    MissingOutcome(nodes);
    SharedOutcome(nodes, if e.SlotDuplicate? then e.slot else "");
    SlotGroups(nodes, Least(shared));
  }

  lemma {:induction false} UnusedFails(providers: Providers, w: Workflow, list: seq<Binding>, e: Error)
    requires UniqueSlots(list) && AllSlotsGiven(w.nodes) && SlotsDiffer(w.nodes) && !SlotsInOrder(w.nodes, list)
    ensures Injected(providers, w, list) == Err(e) <==> Fails(providers, w.nodes, list, e)
    ensures Injected(providers, w, list).Err?
  {
    MissingOutcome(w.nodes);
    SharedOutcome(w.nodes, "");
    UnknownOutcome(w.nodes, list);
  }

  lemma {:induction false} LateOutcome(providers: Providers, w: Workflow, list: seq<Binding>)
    requires SlotsInOrder(w.nodes, list)
    ensures forall n :: 0 <= n < |w.nodes| ==> HasSlot(w.nodes[n])
    ensures var e := InjectError(providers, BySlot(list, |list|), w.nodes, |w.nodes|);
      if e.Some? then Injected(providers, w, list) == Err(e.value) else Injected(providers, w, list).Ok?
  {
    MissingOutcome(w.nodes);
    SharedOutcome(w.nodes, "");
    UnknownOutcome(w.nodes, list);
  }

  lemma {:induction false} LateFails(providers: Providers, w: Workflow, list: seq<Binding>, e: Error)
    requires SlotsInOrder(w.nodes, list)
    ensures Injected(providers, w, list) == Err(e) <==> exists i: nat :: FirstTrouble(providers, w.nodes, list, i, e)
  {
    LateOutcome(providers, w, list);
    if Injected(providers, w, list) == Err(e) {
      TroubleExists(providers, w.nodes, list, |w.nodes|, e);
    }
    forall i: nat | FirstTrouble(providers, w.nodes, list, i, e) ensures Injected(providers, w, list) == Err(e) {
      TroubleIs(providers, w.nodes, list, i, e, |w.nodes|);
    }
  }

  /** Injection fails with an error if and only if that error's condition holds. */
  lemma {:induction false} InjectionFailsIff(providers: Providers, w: Workflow, list: seq<Binding>, e: Error)
    ensures Injected(providers, w, list) == Err(e) <==> Fails(providers, w.nodes, list, e)
  {
    if SlotsInOrder(w.nodes, list) {
      LateFails(providers, w, list, e);
      NoEarlyFailure(w.nodes, list);
      if exists i: nat :: FirstTrouble(providers, w.nodes, list, i, e) {
        LateErrors(providers, w.nodes, list, e);
      }
    } else {
      EarlyOutcome(providers, w, list, e);
    }
  }

  lemma {:induction false} NoEarlyFailure(nodes: seq<Node>, list: seq<Binding>)
    requires SlotsInOrder(nodes, list)
    ensures forall j: nat :: !FirstRepeat(list, j)
    ensures forall j: nat :: !FirstWithoutSlot(nodes, j)
    ensures forall slot :: !LeastShared(nodes, slot)
    ensures forall j: nat :: !FirstUnused(nodes, list, j)
  {
    assert forall j :: 0 <= j < |list| ==> list[j] in list;
  }

  lemma {:induction false} LateErrors(providers: Providers, nodes: seq<Node>, list: seq<Binding>, e: Error)
    requires AllSlotsGiven(nodes) && exists i: nat :: FirstTrouble(providers, nodes, list, i, e)
    ensures !e.BindingDuplicate? && !e.SlotRequired? && !e.SlotDuplicate? && !e.SlotNotFound?
  {
    var i: nat :| FirstTrouble(providers, nodes, list, i, e);
    assert SlotGiven(nodes[i]);
    var slot := nodes[i].worker.slot.value;
    if Bound(list, slot) {
      var b :| b in list && b.slot == slot && Complaint(providers, slot, b, e);
    }
  }

  /** Workers' slots are trimmed, distinct, and exactly the bindings' slots, which are distinct too. */
  ghost predicate SlotsAgree(nodes: seq<Node>, list: seq<Binding>) {
    && UniqueSlots(list)
    && (forall i :: 0 <= i < |nodes| && nodes[i].WorkerNode? ==>
          nodes[i].worker.slot.Some? && Trimmed(nodes[i].worker.slot.value) && nodes[i].worker.slot.value != "" &&
          Bound(list, nodes[i].worker.slot.value))
    && (forall i, j :: 0 <= i < j < |nodes| && nodes[i].WorkerNode? && nodes[j].WorkerNode? ==>
          nodes[i].worker.slot != nodes[j].worker.slot)
    && (forall b :: b in list ==> exists i :: 0 <= i < |nodes| && nodes[i].WorkerNode? && nodes[i].worker.slot == Some(b.slot))
  }

  /**
   Injection succeeds if and only if slots agree and everything that every binding asks for is offered by
   its agent, which is managed and available.
   */
  lemma {:induction false} InjectionSucceedsIff(providers: Providers, w: Workflow, list: seq<Binding>)
    ensures Injected(providers, w, list).Ok? <==>
      SlotsAgree(w.nodes, list) && forall b :: b in list ==> Usable(providers, b)
  {
    if Injected(providers, w, list).Ok? {
      SuccessAgrees(providers, w, list);
    }
    if SlotsAgree(w.nodes, list) && forall b :: b in list ==> Usable(providers, b) {
      AgreementInOrder(w.nodes, list);
      if Injected(providers, w, list).Err? {
        LateFails(providers, w, list, Injected(providers, w, list).error);
        NoTrouble(providers, w.nodes, list, Injected(providers, w, list).error);
      }
    }
  }

  lemma {:induction false} UsesTrimmed(nodes: seq<Node>, i: int)
    requires 0 <= i < |nodes| && nodes[i].WorkerNode? && nodes[i].worker.slot.Some?
    requires Trimmed(nodes[i].worker.slot.value)
    ensures Uses(nodes, i, nodes[i].worker.slot.value)
    ensures forall slot :: Uses(nodes, i, slot) ==> nodes[i].worker.slot == Some(slot)
  {
    TrimFacts(nodes[i].worker.slot.value);
  }

  lemma {:induction false} AgreementInOrder(nodes: seq<Node>, list: seq<Binding>)
    requires SlotsAgree(nodes, list)
    ensures SlotsInOrder(nodes, list)
  {
    forall i | 0 <= i < |nodes| && nodes[i].WorkerNode?
      ensures SlotGiven(nodes[i]) && Uses(nodes, i, nodes[i].worker.slot.value)
      ensures forall slot :: Uses(nodes, i, slot) ==> nodes[i].worker.slot == Some(slot)
    {
      UsesTrimmed(nodes, i);
      TrimFacts(nodes[i].worker.slot.value);
    }
    forall b | b in list ensures Used(nodes, b.slot) {
      var i :| 0 <= i < |nodes| && nodes[i].WorkerNode? && nodes[i].worker.slot == Some(b.slot);
      assert Uses(nodes, i, b.slot);
    }
  }

  lemma {:induction false} NoTrouble(providers: Providers, nodes: seq<Node>, list: seq<Binding>, e: Error)
    requires SlotsInOrder(nodes, list) && SlotsAgree(nodes, list) && forall b :: b in list ==> Usable(providers, b)
    ensures forall i: nat :: !FirstTrouble(providers, nodes, list, i, e)
  {
    forall i: nat | i < |nodes| && nodes[i].WorkerNode?
      ensures SlotGiven(nodes[i]) && !Trouble(providers, list, nodes[i].worker, e)
    {
      assert SlotGiven(nodes[i]);
      assert Bound(list, nodes[i].worker.slot.value);
      forall b | b in list ensures !Complaint(providers, nodes[i].worker.slot.value, b, e) {
        RefusalIff(providers, nodes[i].worker.slot.value, b, e);
      }
    }
  }

  lemma {:induction false} SuccessAgrees(providers: Providers, w: Workflow, list: seq<Binding>)
    requires Injected(providers, w, list).Ok?
    ensures SlotsAgree(w.nodes, list) && forall b :: b in list ==> Usable(providers, b)
  {
    var nodes := w.nodes;
    InjectionImpliesSlotsMatch(providers, w, list);
    forall i | 0 <= i < |nodes| && nodes[i].WorkerNode?
      ensures var slot := nodes[i].worker.slot;
        slot.Some? && Trimmed(slot.value) && slot.value != "" && Bound(list, slot.value) && SlotAt(nodes, i) == slot.value
      ensures Ready(providers, list, nodes[i].worker)
    {
      WorkerSucceeds(providers, w, list, i);
    }
    forall b | b in list
      ensures Usable(providers, b)
      ensures exists i :: 0 <= i < |nodes| && nodes[i].WorkerNode? && nodes[i].worker.slot == Some(b.slot)
    {
      TableIs(list, b.slot);
      var i :| IsWorker(nodes, i) && SlotAt(nodes, i) == b.slot;
      var other :| other in list && other.slot == b.slot && Usable(providers, other);
      TableIs(list, other.slot);
    }
  }

  lemma {:induction false} WorkerSucceeds(providers: Providers, w: Workflow, list: seq<Binding>, i: nat)
    requires Injected(providers, w, list).Ok? && i < |w.nodes| && w.nodes[i].WorkerNode?
    requires UniqueSlots(list) && SlotsMatch(w.nodes, list)
    ensures var slot := w.nodes[i].worker.slot;
      && slot.Some? && Trimmed(slot.value) && slot.value != "" && Bound(list, slot.value) && SlotAt(w.nodes, i) == slot.value
      && Ready(providers, list, w.nodes[i].worker)
  {
    assert IsWorker(w.nodes, i);
    InjectedPointwise(providers, w, list, Injected(providers, w, list).value, i);
    WorkerOutcome(providers, list, w.nodes[i].worker, SlotRequired(""));
  }

  /** What runs: every worker with exactly its binding's execution fields, everything else as it was. */
  lemma {:induction false} InjectedRuns(providers: Providers, w: Workflow, list: seq<Binding>, i: nat)
    requires Injected(providers, w, list).Ok?
    ensures var x := Injected(providers, w, list).value;
      && x.rest == w.rest && |x.nodes| == |w.nodes|
      && (i < |w.nodes| ==>
            match w.nodes[i]
            case AiDynamic(_) => x.nodes[i] == w.nodes[i]
            case WorkerNode(worker) =>
              exists b :: b in list && worker.slot == Some(b.slot) && x.nodes[i] == WorkerNode(Running(worker, b)))
  {
    InjectionSucceedsIff(providers, w, list);
    if i < |w.nodes| {
      InjectedPointwise(providers, w, list, Injected(providers, w, list).value, i);
      if w.nodes[i].WorkerNode? {
        WorkerOutcome(providers, list, w.nodes[i].worker, SlotRequired(""));
      }
    }
  }
}
