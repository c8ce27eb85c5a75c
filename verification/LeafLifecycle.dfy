/**
 The Runtime execution projection of one leaf: a fence (`executionId`), a phase and a monotone
 revision (src/dynamic.rs), with the phase graph of src/runtime/mod.rs.
 */
module LeafLifecycle {
  import opened Wrappers
  import opened Text

  const U64_MAX: nat := 0xFFFF_FFFF_FFFF_FFFF

  datatype Phase =
    | StartingNode | RunningNode | FinalizingArtifact | RepairingArtifact
    | AwaitingManualCheck | Transitioning | LaunchingNextNode | PreparingWorkspace
    | Paused | Terminal

  predicate Active(p: Phase) {
    p.StartingNode? || p.RunningNode? || p.FinalizingArtifact? || p.RepairingArtifact?
  }

  predicate TransitionAllowed(from: Phase, to: Phase) {
    from == to ||
    match from
    case StartingNode =>
      to in {RunningNode, FinalizingArtifact, RepairingArtifact, PreparingWorkspace, Paused, Terminal}
    case RunningNode =>
      to in {StartingNode, FinalizingArtifact, RepairingArtifact, AwaitingManualCheck, Transitioning,
             PreparingWorkspace, Paused, Terminal}
    case FinalizingArtifact => to in {RepairingArtifact, AwaitingManualCheck, Transitioning, Paused, Terminal}
    case RepairingArtifact => to in {FinalizingArtifact, AwaitingManualCheck, Transitioning, Paused, Terminal}
    case AwaitingManualCheck => to in {Transitioning, Paused}
    case Transitioning => to in {LaunchingNextNode, StartingNode, PreparingWorkspace, Paused, Terminal}
    case LaunchingNextNode => to in {StartingNode, RunningNode, PreparingWorkspace, Paused, Terminal}
    case PreparingWorkspace =>
      to in {StartingNode, RunningNode, Transitioning, LaunchingNextNode, Paused, Terminal}
    case Paused =>
      to in {StartingNode, FinalizingArtifact, RepairingArtifact, AwaitingManualCheck, Transitioning,
             PreparingWorkspace}
    case Terminal => false
  }

  datatype LeafExec = LeafExec(
    executionId: Option<string>,
    phase: Option<Phase>,
    revision: nat,
    updatedAt: Option<string>)

  /** The four execution clauses of `validate_dynamic_node_state`. */
  predicate ExecClauses(e: LeafExec) {
    && (e.executionId.None? || (e.phase.Some? && Active(e.phase.value)))
    && (e.phase.Some? && e.phase.value in {Paused, Terminal} ==> e.executionId.None?)
    && (e.revision == 0 <==> e.updatedAt.None?)
    && (e.updatedAt.Some? ==> !Blank(e.updatedAt.value))
  }

  datatype Op =
    | Begin(id: string, at: string)
    | Transition(id: string, phase: Phase, at: string)
    | Pause(at: string)
    | Complete(at: string)
    | Advance(at: string)

  /** `Done` is `Ok(true)` or no result, `Stale` is `Ok(false)`, `Rejected` is the error. */
  datatype Outcome = Done | Stale | Rejected

  function Advanced(e: LeafExec, at: string): LeafExec {
    e.(revision := if e.revision < U64_MAX then e.revision + 1 else e.revision, updatedAt := Some(at))
  }

  /** A late `RunningNode` report never takes a finalizing or repairing leaf back. */
  function EffectivePhase(current: Phase, requested: Phase): Phase {
    if requested.RunningNode? && (current.FinalizingArtifact? || current.RepairingArtifact?) then current
    else requested
  }

  function Step(e: LeafExec, op: Op): (LeafExec, Outcome) {
    match op
    case Begin(id, at) => (Advanced(e.(executionId := Some(id), phase := Some(StartingNode)), at), Done)
    case Pause(at) => (Advanced(e.(executionId := None, phase := Some(Paused)), at), Done)
    case Complete(at) => (Advanced(e.(executionId := None, phase := Some(Terminal)), at), Done)
    case Advance(at) => (Advanced(e, at), Done)
    case Transition(id, requested, at) =>
      if e.executionId != Some(id) then (e, Stale)
      else
        var current := e.phase.GetOr(StartingNode);
        var phase := EffectivePhase(current, requested);
        if !TransitionAllowed(current, phase) then (e, Rejected)
        else (Advanced(e.(phase := Some(phase)), at), Done)
  }

  /** The runtime fields of `DynamicNodeState`, updated in place. */
  class Leaf {
    var executionId: Option<string>
    var phase: Option<Phase>
    var revision: nat
    var updatedAt: Option<string>

    function View(): LeafExec
      reads this
    {
      LeafExec(executionId, phase, revision, updatedAt)
    }

    constructor (e: LeafExec)
      ensures View() == e
    {
      executionId, phase, revision, updatedAt := e.executionId, e.phase, e.revision, e.updatedAt;
    }

    method AdvanceRevision(at: string)
      modifies this`revision, this`updatedAt
      ensures View() == Step(old(View()), Advance(at)).0
    {
      if revision < U64_MAX {
        revision := revision + 1;
      }
      updatedAt := Some(at);
    }

    method BeginExecution(id: string, at: string)
      modifies this
      ensures View() == Step(old(View()), Begin(id, at)).0
    {
      executionId := Some(id);
      phase := Some(StartingNode);
      AdvanceRevision(at);
    }

    method TransitionExecution(expected: string, requested: Phase, at: string) returns (r: Outcome)
      modifies this
      ensures (View(), r) == Step(old(View()), Transition(expected, requested, at))
    {
      if executionId != Some(expected) {
        return Stale;
      }
      var current := phase.GetOr(StartingNode);
      var next := requested;
      if requested == RunningNode && (current == FinalizingArtifact || current == RepairingArtifact) {
        next := current;
      }
      if !TransitionAllowed(current, next) {
        return Rejected;
      }
      phase := Some(next);
      AdvanceRevision(at);
      return Done;
    }

    method PauseExecution(at: string)
      modifies this
      ensures View() == Step(old(View()), Pause(at)).0
    {
      executionId := None;
      phase := Some(Paused);
      AdvanceRevision(at);
    }

    method CompleteExecution(at: string)
      modifies this
      ensures View() == Step(old(View()), Complete(at)).0
    {
      executionId := None;
      phase := Some(Terminal);
      AdvanceRevision(at);
    }
  }

  // ---- One step ----

  /** The phase that a report starts from; a leaf without a phase counts as starting. */
  function Current(e: LeafExec): Phase {
    e.phase.GetOr(StartingNode)
  }

  /** The guards that turn a report away: its id does not own the fence, or its phase is not allowed. */
  predicate Refused(e: LeafExec, op: Op) {
    && op.Transition?
    && (e.executionId != Some(op.id) || !TransitionAllowed(Current(e), EffectivePhase(Current(e), op.phase)))
  }

  /** From a valid leaf a step gives a valid leaf exactly when it is refused, or is dated and reports an active phase. */
  lemma {:induction false} StepKeepsClausesIff(e: LeafExec, op: Op)
    requires ExecClauses(e)
    ensures ExecClauses(Step(e, op).0) <==>
            Refused(e, op) || (!Blank(op.at) && (op.Transition? ==> Active(op.phase)))
  {
    if op.Transition? && !Refused(e, op) {
      assert Active(Current(e));
    }
  }

  /** Every report of a phase that is allowed but not active is accepted and breaks the clauses, however it is dated. */
  lemma {:induction false} LeavingActiveBreaksClauses(e: LeafExec, requested: Phase, at: string)
    requires ExecClauses(e) && e.executionId.Some?
    requires !Active(requested) && TransitionAllowed(Current(e), requested)
    ensures var op := Transition(e.executionId.value, requested, at);
      Step(e, op).1 == Done && !ExecClauses(Step(e, op).0)
  {
    StepKeepsClausesIff(e, Transition(e.executionId.value, requested, at));
  }

  /** Each such pair of phases occurs: some valid leaf is left invalid by a dated report. */
  lemma {:induction false} EveryLeavingPhaseBreaks(current: Phase, requested: Phase)
    requires Active(current) && !Active(requested) && TransitionAllowed(current, requested)
    ensures exists e: LeafExec, op: Op ::
      && ExecClauses(e) && e.phase == Some(current) && op.Transition? && op.phase == requested && !Blank(op.at)
      && Step(e, op).1 == Done && !ExecClauses(Step(e, op).0)
  {
    var e := LeafExec(Some("x"), Some(current), 1, Some("t"));
    var op := Transition("x", requested, "t");
    assert !IsWhitespace("t"[0]);
    assert !Blank("t");
    LeavingActiveBreaksClauses(e, requested, "t");
    assert ExecClauses(e) && op.phase == requested;
  }

  // ---- What every step leaves behind ----

  /** One more, up to the machine word, at the given time. */
  predicate Watermarked(before: LeafExec, after: LeafExec, at: string) {
    after.revision == (if before.revision >= U64_MAX then before.revision else before.revision + 1) && after.updatedAt == Some(at)
  }

  /** The owner and the phase after every step that is no transition. */
  lemma {:induction false} StepSets(e: LeafExec, op: Op)
    requires !op.Transition?
    ensures var after := Step(e, op).0;
      && Step(e, op).1 == Done && Watermarked(e, after, op.at)
      && match op
         case Begin(id, _) => after.executionId == Some(id) && after.phase == Some(StartingNode)
         case Pause(_) => after.executionId == None && after.phase == Some(Paused)
         case Complete(_) => after.executionId == None && after.phase == Some(Terminal)
         case _ => after.executionId == e.executionId && after.phase == e.phase
  {
  }

  /**
   A report changes nothing unless its id owns the fence. Then a late report of a running node is accepted but
   leaves a finalizing or repairing leaf in its phase, and any other is accepted exactly if the phase graph allows it.
   */
  lemma {:induction false} ReportSets(e: LeafExec, id: string, requested: Phase, at: string)
    ensures var after := Step(e, Transition(id, requested, at)).0; var outcome := Step(e, Transition(id, requested, at)).1;
      var current := if e.phase.Some? then e.phase.value else StartingNode;
      var late := requested == RunningNode && current in {FinalizingArtifact, RepairingArtifact};
      if e.executionId != Some(id) then outcome == Stale && after == e
      else if late || TransitionAllowed(current, requested) then
        && outcome == Done && after.executionId == e.executionId && Watermarked(e, after, at)
        && after.phase == Some(if late then current else requested)
      else outcome == Rejected && after == e
  {
  }

  /** The phase graph read backwards: from where each phase can be reached in one step. */
  lemma {:induction false} Predecessors(from: Phase, to: Phase)
    requires from != to
    ensures TransitionAllowed(from, to) <==>
      from in (match to
               case StartingNode => {RunningNode, Transitioning, LaunchingNextNode, PreparingWorkspace, Paused}
               case RunningNode => {StartingNode, LaunchingNextNode, PreparingWorkspace}
               case FinalizingArtifact => {StartingNode, RunningNode, RepairingArtifact, Paused}
               case RepairingArtifact => {StartingNode, RunningNode, FinalizingArtifact, Paused}
               case AwaitingManualCheck => {RunningNode, FinalizingArtifact, RepairingArtifact, Paused}
               case Transitioning =>
                 {RunningNode, FinalizingArtifact, RepairingArtifact, AwaitingManualCheck, PreparingWorkspace, Paused}
               case LaunchingNextNode => {Transitioning, PreparingWorkspace}
               case PreparingWorkspace => {StartingNode, RunningNode, Transitioning, LaunchingNextNode, Paused}
               case Paused =>
                 {StartingNode, RunningNode, FinalizingArtifact, RepairingArtifact, AwaitingManualCheck, Transitioning,
                  LaunchingNextNode, PreparingWorkspace}
               case Terminal =>
                 {StartingNode, RunningNode, FinalizingArtifact, RepairingArtifact, Transitioning, LaunchingNextNode,
                  PreparingWorkspace})
  {
  }

  /** Every phase but the terminal one can be paused, and from a pause every phase can be reached again. */
  lemma {:induction false} PauseIsNoTrap(from: Phase, to: Phase)
    requires from != Terminal && from != Paused && to != Paused
    ensures TransitionAllowed(from, Paused)
    ensures TransitionAllowed(Paused, to) || exists via: Phase :: TransitionAllowed(Paused, via) && TransitionAllowed(via, to)
    ensures !TransitionAllowed(Terminal, from)
  {
    var via := if to == Terminal || to == RunningNode then StartingNode else if to == LaunchingNextNode then Transitioning else to;
    assert TransitionAllowed(Paused, via) && TransitionAllowed(via, to);
  }

  // ---- Whole runs ----

  ghost function Run(e: LeafExec, ops: seq<Op>): LeafExec {
    if ops == [] then e else Step(Run(e, ops[..|ops| - 1]), ops[|ops| - 1]).0
  }

  ghost predicate Accepted(e: LeafExec, ops: seq<Op>, i: nat)
    requires i < |ops|
  {
    Step(Run(e, ops[..i]), ops[i]).1 == Done
  }

  ghost function AcceptedCount(e: LeafExec, ops: seq<Op>): nat {
    if ops == [] then 0
    else AcceptedCount(e, ops[..|ops| - 1]) + if Accepted(e, ops, |ops| - 1) then 1 else 0
  }

  /** What every caller of the leaf can guarantee: dated steps, transitions only between active phases. */
  predicate Disciplined(ops: seq<Op>) {
    forall i :: 0 <= i < |ops| ==> !Blank(ops[i].at) && (ops[i].Transition? ==> Active(ops[i].phase))
  }

  /** Safety over whole runs: every state a disciplined run passes through satisfies the validator. */
  lemma {:induction false} RunKeepsClauses(e: LeafExec, ops: seq<Op>, n: nat)
    requires ExecClauses(e) && Disciplined(ops) && n <= |ops|
    ensures ExecClauses(Run(e, ops[..n]))
    decreases n
  {
    if n > 0 {
      RunKeepsClauses(e, ops, n - 1);
      var pre := ops[..n];
      assert pre[..|pre| - 1] == ops[..n - 1];
      StepKeepsClausesIff(Run(e, ops[..n - 1]), ops[n - 1]);
    }
  }

  /** The revision counts accepted steps exactly, up to saturation, and so never decreases. */
  lemma {:induction false} RevisionCountsAcceptedSteps(e: LeafExec, ops: seq<Op>)
    requires e.revision <= U64_MAX
    ensures var total := e.revision + AcceptedCount(e, ops);
            Run(e, ops).revision == if total <= U64_MAX then total else U64_MAX
    decreases |ops|
  {
    if ops != [] {
      var pre := ops[..|ops| - 1];
      RevisionCountsAcceptedSteps(e, pre);
      assert ops[..|ops| - 1] == pre;
    }
  }

  /** The id that a run authorises, read off the operations alone: the last `Begin` not yet paused or completed. */
  function Owner(initial: Option<string>, ops: seq<Op>): Option<string> {
    if ops == [] then initial
    else
      match ops[|ops| - 1]
      case Begin(id, _) => Some(id)
      case Pause(_) => None
      case Complete(_) => None
      case _ => Owner(initial, ops[..|ops| - 1])
  }

  /** The fence is exact over whole runs: a transition is stale if and only if its id is not the owner's. */
  lemma {:induction false} FenceFollowsOwner(e: LeafExec, ops: seq<Op>)
    ensures Run(e, ops).executionId == Owner(e.executionId, ops)
    ensures forall id, phase, at ::
      Step(Run(e, ops), Transition(id, phase, at)).1 == Stale <==> Owner(e.executionId, ops) != Some(id)
    decreases |ops|
  {
    if ops != [] {
      FenceFollowsOwner(e, ops[..|ops| - 1]);
    }
  }

  /** After a pause or a completion no id gets through and no transition changes anything until the next `Begin`. */
  lemma {:induction false} ClosedUntilNextBegin(e: LeafExec, ops: seq<Op>, stop: nat, i: nat)
    requires stop < i < |ops| && (ops[stop].Pause? || ops[stop].Complete?)
    requires forall k :: stop < k < i ==> !ops[k].Begin?
    requires ops[i].Transition?
    ensures Step(Run(e, ops[..i]), ops[i]) == (Run(e, ops[..i]), Stale)
  {
    FenceFollowsOwner(e, ops[..i]);
    NoOwnerAfterStop(e.executionId, ops, stop, i);
  }

  lemma {:induction false} NoOwnerAfterStop(initial: Option<string>, ops: seq<Op>, stop: nat, i: nat)
    requires stop < i <= |ops| && (ops[stop].Pause? || ops[stop].Complete?)
    requires forall k :: stop < k < i ==> !ops[k].Begin?
    ensures Owner(initial, ops[..i]).None?
    decreases i
  {
    var pre := ops[..i];
    assert pre[|pre| - 1] == ops[i - 1];
    if i - 1 > stop {
      NoOwnerAfterStop(initial, ops, stop, i - 1);
      assert pre[..|pre| - 1] == ops[..i - 1];
    }
  }
}
