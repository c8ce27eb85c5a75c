# Sasuke state and transformation cores

A Dafny model of the parts of the repository where state is transformed step by step and where the result
is right only because several functions agree: the migration and loading of dynamic graphs, the leaf
runtime fence, workflow model bindings, the workspace registry and its identity migration, two codecs,
the front matter reader and printer, attachment naming, two analytics folds, and the exit coordinator.

Code that edits a value in place is a class or an array method that follows the same loops; each such
method is proved equal to a specification function, and the properties are proved about those functions,
over all inputs, all runs or all interruptions. Where the code meets a property only sometimes, the exact
condition is stated as an if-and-only-if.

| file | component |
|---|---|
| `LeafLifecycle.dfy` | execution fence, phase and revision of a graph leaf |
| `GraphModel.dfy` | graph values, states, validators, decoding and encoding |
| `CatalogMigration.dfy`, `CatalogTopology.dfy`, `CatalogTheorems.dfy`, `CatalogContents.dfy` | graph v0.1 to v0.2: links, topology, checkouts |
| `LeafMigration.dfy` | graph v0.2 to v0.4 |
| `GraphDocument.dfy` | the migrations as in-place edits |
| `GraphLoading.dfy`, `LegacyLoading.dfy`, `VersionedLoading.dfy` | loading of every version, atomic writes, interruptions |
| `WorkflowBindings.dfy`, `BindingTheorems.dfy`, `BindingContents.dfy` | extraction and saves |
| `WorkflowInjection.dfy`, `InjectionOutcomes.dfy` | injection |
| `Registry.dfy`, `RegistryTheorems.dfy`, `RegistryEffects.dfy` | workspaces, pins, run modes, last workspace |
| `IdentityMigration.dfy`, `IdentityTheorems.dfy`, `IdentityEffects.dfy` | canonical project ids |
| `Frontmatter.dfy`, `FrontmatterTheorems.dfy` | delimiter scan, printer, field sources |
| `Base64.dfy`, `Base64Theorems.dfy`, `Dibv5.dfy` | codecs |
| `AttachmentNames.dfy`, `AttachmentBatch.dfy`, `AttachmentRules.dfy` | unique names, batch writes |
| `PromptJournal.dfy`, `ProjectionCounts.dfy` | analytics folds |
| `ExitCoordinator.dfy`, `ExitProgress.dfy` | application exit: safety and progress |
| `Wrappers.dfy`, `Text.dfy`, `Ordered.dfy`, `Collections.dfy` | values, string operations, key order, collection facts |

Findings about the code. Each has its exact condition and a lemma that shows a concrete input:

- A leaf transition keeps the execution id. So every accepted transition to a phase that is not active
  (paused, terminal, awaiting a manual check, transitioning, preparing a workspace) leaves a leaf that the
  validator rejects; every other dated step is safe (`LeafLifecycle.StepKeepsClausesIff`, `LeafLifecycle.EveryLeavingPhaseBreaks`).
- The v0.1 catalog migration recomputes group targets after the loop that used them. The two agree, and the
  topology validator accepts the result, exactly when worktree roots of different groups have different
  checkouts and no group's creator is moved by that group or a later one (`CatalogTheorems.TopologyIff`,
  `CatalogTheorems.LateCreatorRejected`).
- Reordering pins stores whatever list it is given, so a list that names a task twice duplicates the pin
  (`RegistryTheorems.DistinctPinsKeptIff`, `RegistryTheorems.ReorderDuplicatesPin`).
- A pin after the greatest machine word is stored with number 0 when overflow wraps
  (`RegistryTheorems.CommandKeepsSoundIff`, `RegistryTheorems.PinNumberWraps`).
- Without its version guard the identity migration would not be idempotent: a reference moves on if a legacy
  id of an earlier workspace shadows it (`IdentityTheorems.MigrationSettlesIff`,
  `IdentityTheorems.ClashMovesLast`).
- The base64 decoder accepts padding inside the text and non-zero unused bits (`Base64Theorems.ReencodesIff`,
  `Base64Theorems.InnerPaddingAccepted`, `Base64Theorems.UnusedBitsAccepted`).
- A multi-line front matter value comes back from the printer exactly when none of its lines ends in a
  carriage return (`FrontmatterTheorems.FieldSurvivesIff`, `FrontmatterTheorems.CarriageReturnIsLost`).

## Model

| member | source | states |
|---|---|---|
| LeafLifecycle.Leaf.AdvanceRevision | src/dynamic.rs:228-231 | revision and time advance together; nothing else changes |
| LeafLifecycle.Leaf.BeginExecution | src/dynamic.rs:233-241 | starting an execution sets fence, phase, revision and time as one step of the lifecycle |
| LeafLifecycle.Leaf.TransitionExecution | src/dynamic.rs:243-272 | the three outcomes of a phase report, and what each leaves in the leaf; late running reports do not undo finalizing or repairing |
| LeafLifecycle.Leaf.PauseExecution | src/dynamic.rs:274-278 | pausing closes the fence and advances the revision |
| LeafLifecycle.Leaf.CompleteExecution | src/dynamic.rs:280-284 | completing closes the fence and advances the revision |
| LeafLifecycle.StepKeepsClausesIff | src/dynamic.rs:1125-1155 | a step from a valid leaf ends in a valid leaf if and only if it is refused, which a guard on the leaf and the step tells beforehand, or is dated and no transition to an inactive phase |
| LeafLifecycle.LeavingActiveBreaksClauses | src/dynamic.rs:243-272 | every accepted transition of a leaf to a phase that is not active leaves it invalid |
| LeafLifecycle.EveryLeavingPhaseBreaks | src/dynamic.rs:243-272 | for every allowed pair of an active and an inactive phase there is a valid leaf and an accepted, dated transition that leaves it invalid |
| LeafLifecycle.StepSets | src/dynamic.rs:228-284 | owner, phase, revision and time after every begin, pause, completion and plain advance |
| LeafLifecycle.ReportSets | src/dynamic.rs:243-272 | what every phase report does: stale ids and forbidden phases change nothing; a late report of a running node is accepted and leaves a finalizing or repairing leaf in its phase |
| LeafLifecycle.Predecessors | src/runtime/mod.rs:48-110 | from which phases each phase can be reached in one step |
| LeafLifecycle.PauseIsNoTrap | src/runtime/mod.rs:48-110 | every phase but the terminal one can be paused, every phase can be reached from a pause, and the terminal phase is left by no transition |
| LeafLifecycle.RunKeepsClauses | src/dynamic.rs:227-285 | every state of every disciplined run satisfies the validator's execution clauses |
| LeafLifecycle.RevisionCountsAcceptedSteps | src/dynamic.rs:228-231 | the revision is the start value plus the number of accepted steps, saturating |
| LeafLifecycle.FenceFollowsOwner | src/dynamic.rs:243-272 | over whole runs a transition is stale if and only if its id is not that of the last begin not yet ended |
| LeafLifecycle.ClosedUntilNextBegin | src/dynamic.rs:274-284 | after a pause or completion every transition is stale and changes nothing until the next begin |
| GraphDocument.Document.PlaceNodes | src/dynamic_store.rs:346-396 | first pass over the nodes in place, with the id map and the descriptor map in step; fails exactly on an unnamed node |
| GraphDocument.Document.RemapGroupChain | src/dynamic_store.rs:519-544 | a whole chain moves to a workspace in the node array and in the id map |
| GraphDocument.Document.ProcessGroups | src/dynamic_store.rs:402-445 | the nested loop over groups and roots; stops exactly at an unreadable group |
| GraphDocument.Document.LinkGroups | src/dynamic_store.rs:481-510 | the second pass writes target and children, and fails exactly on a root that names no node |
| GraphDocument.Document.BuildCatalog | src/dynamic_store.rs:447-479 | main workspace followed by the legacy workspaces in id order |
| GraphDocument.Document.MigrateV01 | src/dynamic_store.rs:312-517 | the whole v0.1 step in place, with the exact inputs on which it succeeds |
| GraphDocument.Document.MigrateV02 | src/dynamic_store.rs:169-279 | the whole v0.2 step in place, with the exact inputs on which it succeeds |
| GraphDocument.Document.MigrateV03 | src/dynamic_store.rs:281-310 | the whole v0.3 step in place |
| CatalogTheorems.ShapedMigrates | src/dynamic_store.rs:481-500 | on graphs whose roots belong to their groups no root is missing when groups are linked |
| CatalogTheorems.TopologyIsLinks | src/dynamic.rs:1247-1288 | the topology validator accepts a migrated graph if and only if every root's catalog entry names its group's final target and the group |
| CatalogTheorems.SettledTargetsAgree | src/dynamic_store.rs:408-411 | with settled creators the target used in the loop is the target the second pass writes |
| CatalogTheorems.UnsettledTargetsDiffer | src/dynamic_store.rs:489-506 | a creator moved by its own or a later group makes the two targets differ |
| CatalogTheorems.TopologyIff | src/dynamic_store.rs:312-517 | for every well-formed v0.1 graph: the migration succeeds, and the topology validator accepts its result if and only if worktree roots of different groups have different checkouts and every creator is settled |
| CatalogTheorems.EarlierCreatorsSettle | src/dynamic_store.rs:402-445 | if no group precedes or is its creator's group, creators are settled |
| CatalogTheorems.LateCreatorRejected | src/dynamic_store.rs:402-506 | a well-formed v0.1 graph, with a group created by the root of a later group, that the topology validator rejects once migrated |
| CatalogTheorems.IdentityInjective | src/dynamic_store.rs:593-596 | different origins have different identity strings when group ids have no colon |
| CatalogTheorems.NoCollisions | src/dynamic_store.rs:593-596 | a digest that separates the identities at hand excludes all workspace id collisions |
| CatalogContents.WorktreeKeepsCheckout | src/dynamic_store.rs:346-396 | a worktree node that no moved chain takes along finds, under its final workspace id, the path that the first node recorded in its checkout had, or a path below .sasuke/legacy-workspaces that ends in the id; branch, fork commit and status are what git answers for that path and the group's status decide |
| CatalogContents.MovedChainReleased | src/dynamic_store.rs:402-445 | every node on the chain of a root that worked in the main checkout is moved to a released checkout of that root's group, below the group's target, whatever git says about its path |
| CatalogContents.MainNodesStay | src/dynamic_store.rs:346-465 | every other node stays in the main workspace, which is the repository with its head |
| CatalogContents.WorktreeLinks | src/dynamic_store.rs:372-440 | parent and group of a worktree's entry: those of the last group with a root in it, or else the main workspace and the group of its first node |
| CatalogContents.NothingElseCatalogued | src/dynamic_store.rs:447-479 | every catalogued workspace but the main one stems from a worktree node or from a root in the main checkout |
| CatalogContents.MigrationTouchesOnly | src/dynamic_store.rs:312-517 | versions, placements, links and the catalog are all that the step rewrites |
| CatalogTheorems.FinalGroupLinks | src/dynamic_store.rs:481-510 | the target and the children written into a group are the final workspaces of its creator and of its roots |
| LeafMigration.LeafValidIff | src/dynamic_store.rs:169-310 | a v0.2 leaf satisfies all execution clauses after both steps if and only if its timestamps are well dated |
| LeafMigration.DatedLeafValid | src/dynamic_store.rs:169-310 | non-blank timestamps and jointly initialised revision and timestamp suffice |
| LeafMigration.FenceSurvivesIff | src/dynamic_store.rs:196-262 | an execution id survives exactly on startable leaves and on completed leaves a running graph owns |
| LeafMigration.RevisionNeverDecreases | src/dynamic_store.rs:281-310 | the revision does not fall, except that pending leaves restart at zero |
| LeafMigration.V02Idempotent | src/dynamic_store.rs:169-279 | the v0.2 step run again changes nothing |
| LeafMigration.LeafPhase | src/dynamic_store.rs:196-262 | the phase of every migrated leaf: paused, none or terminal by its status, and for leaves with an execution their active phase or the one their status implies |
| LeafMigration.LeafWatermark | src/dynamic_store.rs:196-310 | the revision and the time of every migrated leaf: 0 and none if pending, as recorded if nothing was executed, else at least 1 and the first time on record |
| LeafMigration.LeafKeepsRest | src/dynamic_store.rs:169-310 | everything but execution fields and versions stays, and the execution id goes exactly where nothing executes any more |
| LeafMigration.V03Renames | src/dynamic_store.rs:281-310 | the v0.3 step alone moves revision and time and changes nothing else |
| GraphLoading.GraphFromValue | src/dynamic_store.rs:88-132 | the migration chain and validation, with the exact values that load |
| GraphLoading.Storage.WriteNodeState | src/dynamic.rs:200-224 | one projection write: refused exactly on an unreadable stored version, else the greater version is kept |
| GraphLoading.Storage.PersistProjections | src/dynamic_store.rs:57-71 | the projection writes in order, stopping at the first refusal |
| GraphLoading.Storage.LoadGraph | src/dynamic_store.rs:43-55 | the disk and the result of a load |
| GraphLoading.ProjectionsClosedForm | src/dynamic_store.rs:57-71 | while nothing is refused, each file holds its last writer's content and the greatest version |
| GraphLoading.CrashConverges | src/dynamic_store.rs:43-71 | a load interrupted after any number of projection writes, run again, ends like one uninterrupted load, on disk and in its result, refused writes included |
| GraphLoading.ManyCrashesConverge | src/dynamic_store.rs:43-71 | the same for any series of interruptions |
| GraphLoading.SecondLoadIsNoop | src/dynamic_store.rs:43-55 | after a successful migrating load every further load leaves the disk alone and reads the same graph, in any environment |
| GraphLoading.VersionIsHighestWritten | src/dynamic.rs:200-224 | after any writes by any writers, stale ones included, the stored version is the greatest ever written and the content the last writer's |
| GraphLoading.LoadWrites | src/dynamic_store.rs:43-71 | what a load leaves on disk: nothing without a migration; else all projections and the graph, or no new graph if some leaf file is unreadable |
| GraphLoading.StoredForm | src/dynamic_store.rs:57-71 | the stored form of a node has current fields only, and no storage version |
| VersionedLoading.CurrentLoadsIff | src/dynamic_store.rs:97-101 | a current value loads unchanged if and only if each part and the topology are valid |
| VersionedLoading.V03LoadsIff | src/dynamic_store.rs:102-107 | a v0.3 value loads if and only if its parts are valid with revision and time moved over, and what it loads to |
| VersionedLoading.V02LoadsIff | src/dynamic_store.rs:108-126 | a v0.2 value, or a v0.1 value that has a catalog, loads if and only if its parts are valid and every leaf is well dated |
| VersionedLoading.V02Loaded | src/dynamic_store.rs:108-126 | what such a value loads to, leaf for leaf |
| VersionedLoading.VersionDecides | src/dynamic_store.rs:88-132 | four versions load, and only the current one without a migration |
| VersionedLoading.LoadedNodeConsistent | src/dynamic.rs:1102-1155 | every node of a loaded graph works in exactly one catalogued workspace and has an execution that agrees with its phase |
| VersionedLoading.LoadedGroupConsistent | src/dynamic.rs:1247-1288 | every group of a loaded graph has one target and for each root a child forked from it by the group |
| VersionedLoading.LoadedFrameConsistent | src/dynamic.rs:1193-1245 | run and workspaces of a loaded graph are complete and agree with their states |
| LegacyLoading.CatalogValid | src/dynamic.rs:1193-1245 | every catalogued workspace passes the workspace validator |
| LegacyLoading.LegacyGraphLoadsIff | src/dynamic_store.rs:88-150 | a well-formed v0.1 graph without a complete catalog whose other fields are in order loads, through all migrations and all validators, if and only if the two conditions of the catalog migration hold |
| WorkflowBindings.AuthoringWorkflow.ExtractWorkers | src/workflow_model_binding.rs:246-309 | the loop over workers clears them in place, files their bindings, and reports a change exactly if there is one |
| WorkflowBindings.AuthoringWorkflow.Migrate | src/workflow_model_binding.rs:232-332 | the whole migration; fails exactly on duplicate slots and then changes nothing; the flag tells exactly whether anything changed |
| WorkflowBindings.AuthoringWorkflow.ReconcileForSave | src/workflow_model_binding.rs:334-363 | what a save stores, when it is refused, and that its flag tells exactly whether the submitted workflow was changed |
| BindingTheorems.MigrationKeepsDefinition | src/workflow_model_binding.rs:209-230 | extraction leaves the hashed definition unchanged and records its revision |
| BindingTheorems.MigrationIdempotent | src/workflow_model_binding.rs:232-332 | the migration changes nothing on its own output, even with other UUIDs on offer |
| BindingTheorems.SavedSettles | src/workflow_model_binding.rs:334-363 | a save over any stored value, migrated or not, stores a fixed point of the migration; its revision is that of the migrated stored value, raised exactly if the list changed |
| BindingTheorems.RevisionCountsChanges | src/workflow_model_binding.rs:334-363 | after any series of saves over any stored value the revision is that of its migration plus the number of changes of the stored list, saturating |
| BindingTheorems.DuplicateBlocksSaves | src/workflow_model_binding.rs:334-363 | over a stored value with a duplicate slot every save is refused and nothing changes |
| BindingTheorems.ClientRevisionsIgnored | src/workflow_model_binding.rs:334-363 | revisions sent by a client do not influence what is stored |
| BindingContents.WorkersAfterMigration | src/workflow_model_binding.rs:246-309 | every worker keeps id and definition, loses its execution fields, and has its template's slot, its own, or a new one |
| BindingContents.TemplateSlotsDiffer | src/workflow_model_binding.rs:205-207 | workers of one template with different ids have different slots |
| BindingContents.BindingsAfterMigration | src/workflow_model_binding.rs:232-332 | the list is sorted and holds exactly the known bindings and, for slots without one, what the first worker with an agent says, of slots that a worker carries |
| BindingContents.RevisionAfterMigration | src/workflow_model_binding.rs:311-330 | the binding revision goes up by one, saturating, exactly if the list changes |
| BindingContents.DefinitionCovers | src/workflow_model_binding.rs:209-230 | two workflows have the same definition exactly if they differ in slots and execution fields only |
| WorkflowInjection.ValidateAndInject | src/workflow_model_binding.rs:379-498 | injection node by node, with every refusal in the order of the checks |
| WorkflowInjection.InjectionImpliesSlotsMatch | src/workflow_model_binding.rs:386-440 | injectable workflows have trimmed, distinct slots that are exactly the bindings' slots |
| WorkflowInjection.ExtractionUndoesInjectionIff | src/workflow_model_binding.rs:232-498 | outside the built-in templates, migrating an injected workflow gives back the workflow if and only if it carried no execution fields, and the list if and only if it is sorted and normal; the definition stays the same |
| WorkflowInjection.InjectionUndoesExtraction | src/workflow_model_binding.rs:232-498 | whatever bindings were known and whether or not a template renames slots: if the migrated workflow injects, every worker runs with exactly the fields of its known binding or its own, and everything else is unchanged |
| InjectionOutcomes.InjectionSucceedsIff | src/workflow_model_binding.rs:379-498 | injection succeeds if and only if binding slots are distinct, workers' slots are trimmed, distinct and exactly the bindings' slots, every agent is a managed and available one, and every model, permission and option asked for is offered |
| InjectionOutcomes.InjectionFailsIff | src/workflow_model_binding.rs:379-498 | for each kind of error the exact condition under which it is returned, with its parameters |
| InjectionOutcomes.RefusalIff | src/workflow_model_binding.rs:438-491 | a binding is refused with the first complaint in the order agent, model, permission, options |
| InjectionOutcomes.InjectedRuns | src/workflow_model_binding.rs:492-497 | every worker runs with exactly its binding's fields, everything else as it was |
| Registry.ResolvePins | src-tauri/src/commands_conversation.rs:1008-1026 | the numbered pins, or the first pin whose workspace is unknown |
| Registry.Store.PinConversation | src-tauri/src/commands_conversation.rs:927-957 | one pin transaction |
| Registry.Store.UnpinConversation | src-tauri/src/commands_conversation.rs:973-993 | one unpin transaction; dirty exactly if a pin went |
| Registry.Store.ReorderPins | src-tauri/src/commands_conversation.rs:1007-1036 | one reorder transaction; nothing changes if a workspace is unknown |
| Registry.Store.AddWorkspace | src-tauri/src/commands_conversation.rs:1455-1533 | one add transaction with both collision errors |
| Registry.Store.SyncWorkspace | src-tauri/src/commands_conversation.rs:1621-1653 | one sync transaction: adopt, add or refuse |
| Registry.Store.RemoveWorkspace | src-tauri/src/conversation_workspace.rs:134-161 | one removal with everything that refers to it |
| Registry.Store.SaveRunMode | src-tauri/src/commands_conversation.rs:1344-1378 | one run mode transaction |
| Registry.Store.SaveLastWorkspace | src-tauri/src/commands_conversation.rs:1563-1584 | one last-workspace transaction |
| Registry.Store.DeleteTaskPins | src-tauri/src/commands_conversation.rs:1724-1733 | the transaction that ends a task deletion |
| RegistryTheorems.CommandKeepsSoundIff | src-tauri/src/commands_conversation.rs:927-1036 | every command keeps ids and paths unique, references registered, last set exactly if there is a workspace, pin numbers increasing, except exactly a new pin whose number overflows |
| RegistryTheorems.RunKeepsSound | src-tauri/src/commands_conversation.rs:927-1653 | every run of commands keeps the registry sound while the pin numbers it can need fit a machine word |
| RegistryTheorems.AllRunsSound | src-tauri/src/commands_conversation.rs:927-1653 | in particular every such run from the empty state |
| RegistryTheorems.PinNumberWraps | src-tauri/src/commands_conversation.rs:945-955 | a sound registry in which the next pin is stored with number 0 |
| RegistryTheorems.CleanChangesNothing | src-tauri/src/commands_conversation.rs:973-993 | a transaction that skips the save, and every failing one, has changed nothing |
| RegistryTheorems.DistinctPinsKeptIff | src-tauri/src/commands_conversation.rs:1007-1036 | pins stay distinct under every command if and only if it is not an accepted reorder of a list with a repeated task |
| RegistryTheorems.ReorderDuplicatesPin | src-tauri/src/commands_conversation.rs:1007-1036 | an accepted reorder of a sound registry that pins a task twice |
| RegistryTheorems.UnpinUndoesPinIff | src-tauri/src/commands_conversation.rs:927-993 | unpinning undoes pinning if and only if the task was not pinned before |
| RegistryTheorems.RemoveForgets | src-tauri/src/conversation_workspace.rs:134-161 | after a removal nothing refers to the workspace and everything about others is unchanged |
| RegistryTheorems.RemoveUndoesAdd | src-tauri/src/conversation_workspace.rs:134-161 | removing a workspace just added restores the registry, with the first workspace as last used |
| RegistryTheorems.SyncTwice | src-tauri/src/commands_conversation.rs:1621-1653 | sync makes the path's workspace the last used and is idempotent |
| RegistryEffects.NamedRefusedIff | src-tauri/src/commands_conversation.rs:927-993 | a command that names a workspace is refused exactly if it is not registered |
| RegistryEffects.ReorderRefusedIff | src-tauri/src/commands_conversation.rs:1008-1026 | a reorder is refused exactly if some workspace is unknown, with the first such one |
| RegistryEffects.PathRefusedIff | src-tauri/src/commands_conversation.rs:1455-1653 | when adding and synchronizing a path are refused, and with which error |
| RegistryEffects.PinAppends | src-tauri/src/commands_conversation.rs:940-955 | a new pin goes to the end with the next number, and nothing else changes |
| RegistryEffects.UnpinDrops | src-tauri/src/commands_conversation.rs:973-993 | exactly the pins of the task go, the rest keeps its order; saved exactly if there was one |
| RegistryEffects.ReorderStores | src-tauri/src/commands_conversation.rs:1011-1030 | an accepted reorder stores the submitted pins numbered by their place |
| RegistryEffects.AddAppends | src-tauri/src/commands_conversation.rs:1515-1533 | an accepted new path goes to the end under its own id with name and time, and is the last used |
| RegistryEffects.SyncAdopts | src-tauri/src/commands_conversation.rs:1621-1653 | synchronizing a registered path only makes its first workspace the last used |
| RegistryEffects.RemoveRepairs | src-tauri/src/conversation_workspace.rs:134-161 | what removal leaves, in its order, and how the last used workspace is repaired |
| RegistryEffects.SetLastSets | src-tauri/src/commands_conversation.rs:1563-1584 | the named workspace becomes the last used; workspaces, pins and run modes stay |
| RegistryEffects.SetRunModeSets | src-tauri/src/commands_conversation.rs:1344-1378 | the given mode is stored under the named id; other ids keep theirs |
| RegistryEffects.LatestChoiceIsLast | src-tauri/src/commands_conversation.rs:1455-1653 | over runs the last used workspace is that of the latest accepted choice, until it is removed |
| RegistryEffects.LatestModeStays | src-tauri/src/commands_conversation.rs:1344-1378 | over runs the run mode of a workspace is that of the latest accepted save, until it is removed |
| IdentityMigration.BuildPlan | src-tauri/src/conversation_workspace.rs:364-469 | exactly one item for each normalized path among registered, recent, default and discovered paths, under the id of that path |
| IdentityMigration.PlanSeparates | src-tauri/src/conversation_workspace.rs:472-483 | in whatever order the items come, a plan is free of collisions if and only if no two of its paths share an id |
| IdentityMigration.CheckPlan | src-tauri/src/conversation_workspace.rs:472-483 | the loop over owners accepts exactly the plans in which no id belongs to two paths |
| IdentityMigration.PlanWorkspaces | src-tauri/src/conversation_workspace.rs:526-544 | the first loop: aliases of every entry and the first entry of each path |
| IdentityMigration.MigrateModes | src-tauri/src/conversation_workspace.rs:571-582 | run modes inserted by preference, for any visiting order |
| IdentityMigration.MigratePins | src-tauri/src/conversation_workspace.rs:583-592 | pins under canonical ids, the first of each task |
| IdentityMigration.MigrateReferences | src-tauri/src/conversation_workspace.rs:518-600 | the whole migration in place; a current state is left alone |
| IdentityMigration.Execute | src-tauri/src/conversation_workspace.rs:291-349 | plan, check and migration together: refused with nothing changed exactly if two planned paths share an id |
| IdentityTheorems.PlannedWorkspaces | src-tauri/src/conversation_workspace.rs:526-561 | one entry per normalized path under the id of that path, and no path is lost |
| IdentityTheorems.UniqueIdsIff | src-tauri/src/conversation_workspace.rs:526-561 | the migrated ids are unique if and only if no two registered paths share an id |
| IdentityTheorems.ResolvedRegistered | src-tauri/src/conversation_workspace.rs:602-611 | every alias leads to a registered workspace |
| IdentityTheorems.PinsAre | src-tauri/src/conversation_workspace.rs:583-592 | migrated pins are distinct and stem from old pins that resolve to them |
| IdentityTheorems.PinsSurvive | src-tauri/src/conversation_workspace.rs:583-592 | every old pin that resolves stays pinned |
| IdentityTheorems.ModesResolved | src-tauri/src/conversation_workspace.rs:571-582 | for every visiting order: which ids have a run mode, and that canonical entries are preferred |
| IdentityTheorems.CanonicalModeWins | src-tauri/src/conversation_workspace.rs:571-582 | a run mode under the canonical id wins over every alias entry |
| IdentityTheorems.MigratedSound | src-tauri/src/conversation_workspace.rs:518-600 | any old state yields unique paths, sound references and distinct pins; ids are unique if and only if the paths do not collide; sound if they do not and pins were ordered |
| IdentityTheorems.CheckedMigrationSound | src-tauri/src/conversation_workspace.rs:354-600 | any old state whose plan passes the collision check gets unique ids and becomes a sound registry if and only if the migrated pin numbers increase, which they do if they did before; without recent or discovered paths the check refuses exactly the states whose ids would collide |
| IdentityTheorems.MigrationSettlesIff | src-tauri/src/conversation_workspace.rs:518-600 | without the version guard a second migration changes nothing if and only if no referenced id is shadowed by the legacy id of an earlier workspace |
| IdentityTheorems.ClashMovesLast | src-tauri/src/conversation_workspace.rs:518-600 | a state whose last workspace a second, unguarded migration moves to another workspace |
| IdentityEffects.WorkspacesAfter | src-tauri/src/conversation_workspace.rs:526-561 | the first entry at each path is kept, in order and with everything but its id, and the default workspace is added exactly if it is at none of them |
| IdentityEffects.IdsResolve | src-tauri/src/conversation_workspace.rs:533-557 | an id resolves to the new id of the first workspace that was known by it, as recorded, as derived earlier, or as derived now |
| IdentityEffects.PinsAfter | src-tauri/src/conversation_workspace.rs:583-592 | the first pin of each task that resolves is kept, in order and with its number |
| IdentityEffects.LastAfter | src-tauri/src/conversation_workspace.rs:566-598 | the last used workspace is what the old one resolves to, or else the first workspace |
| Dibv5.SwapChannelsInPlace | src-tauri/src/image_actions.rs:199-201 | the loop over pixels exchanges bytes 0 and 2 of each |
| Dibv5.FlipRowsInPlace | src-tauri/src/image_actions.rs:202-207 | the loop over row pairs mirrors the rows, for every height |
| Dibv5.NoOverflow | src-tauri/src/image_actions.rs:182-191 | neither product overflows on a 64-bit target once the sides fit 32 bits |
| Dibv5.Encode | src-tauri/src/image_actions.rs:180-237 | header and converted pixels for exactly the accepted inputs; the buffer is untouched otherwise |
| Dibv5.HeaderReads | src-tauri/src/image_actions.rs:209-235 | every header field at its offset in BITMAPV5HEADER |
| Dibv5.ConvertedByte | src-tauri/src/image_actions.rs:199-207 | row r, column c holds input row height-1-r, column c, bytes 0 and 2 exchanged |
| Dibv5.PixelsSurvive | src-tauri/src/image_actions.rs:180-237 | a reader that goes by the header's size, geometry and masks gets every pixel of the input back |
| Dibv5.ConvertedTwice | src-tauri/src/image_actions.rs:199-207 | both loops together are an involution |
| Base64.SymbolsInvert | src-tauri/src/commands_conversation.rs:2324-2333 | the match arms invert the table |
| Base64.ValuesInvert | src-tauri/src/commands_conversation.rs:2255-2333 | the table inverts the match arms |
| Base64.Encode | src-tauri/src/commands_conversation.rs:2254-2276 | the loop over three-byte chunks computes the encoding |
| Base64.ReadValues | src-tauri/src/commands_conversation.rs:2292-2315 | the loop over one chunk with its value table and padding count, and its first error |
| Base64.Decode | src-tauri/src/commands_conversation.rs:2278-2322 | payload, white space, length check and the loop over chunks compute the decoding |
| Base64Theorems.EncodedLength | src-tauri/src/commands_conversation.rs:2254-2276 | four characters for every three bytes or part of three |
| Base64Theorems.RoundTrip | src-tauri/src/commands_conversation.rs:2254-2322 | decoding undoes encoding of every non-empty byte string, also behind a comma-free header and with white space inserted |
| Base64Theorems.PlainRoundTripIff | src-tauri/src/commands_conversation.rs:2278-2289 | the bare text decodes to its bytes if and only if there are any |
| Base64Theorems.AcceptedIff | src-tauri/src/commands_conversation.rs:2278-2322 | exactly the texts of good chunks are accepted |
| Base64Theorems.DecodedLength | src-tauri/src/commands_conversation.rs:2278-2322 | three bytes for every four visible characters, less the padding |
| Base64Theorems.ReencodesIff | src-tauri/src/commands_conversation.rs:2254-2322 | encoding gives an accepted text back if and only if it is canonical |
| Base64Theorems.UnusedBitsAccepted | src-tauri/src/commands_conversation.rs:2292-2320 | a text with non-zero unused bits that is accepted and never written |
| Base64Theorems.InnerPaddingAccepted | src-tauri/src/commands_conversation.rs:2290-2320 | a text with padding inside that is accepted and never written |
| Base64Theorems.EncodedCharacter | src-tauri/src/commands_conversation.rs:2254-2276 | every character of the encoded text stands for its six bits in the alphabet of section 4 of RFC 4648, or pads behind the last byte |
| Base64Theorems.ChunkErrorIs | src-tauri/src/commands_conversation.rs:2292-2310 | a refused chunk has a bad character before any padding, or else wrong padding |
| Base64Theorems.DecodeErrorIs | src-tauri/src/commands_conversation.rs:2286-2310 | a wrong length is refused as such; otherwise the first chunk that is not good decides |
| Base64Theorems.Utf8Denotes | src-tauri/src/commands_conversation.rs:2291-2292 | the bytes that the decoder sees carry the code points of the text, in as few bytes as possible |
| AttachmentNames.CandidatesDistinct | src-tauri/src/commands_conversation.rs:2231-2252 | candidates for different indexes differ ignoring case |
| AttachmentNames.Pigeonhole | src-tauri/src/commands_conversation.rs:2231-2252 | if all candidates below an index are used there are that many used names |
| AttachmentNames.UniqueName | src-tauri/src/commands_conversation.rs:2231-2252 | the probing loop ends within one probe more than there are used names, with the first free candidate |
| AttachmentNames.SanitizedStaysInside | src-tauri/src/commands_conversation.rs:2209-2229 | a sanitized name is one plain component, and sanitizing it again keeps it |
| AttachmentRules.SanitizedIs | src-tauri/src/commands_conversation.rs:2209-2229 | a name is accepted exactly if what stands behind its last separator, trimmed, is a plain entry without control characters |
| AttachmentRules.NumberedName | src-tauri/src/commands_conversation.rs:2231-2252 | a numbered name has the number between stem and extension |
| AttachmentRules.NumberedPlainName | src-tauri/src/commands_conversation.rs:2231-2252 | a name without an extension has the number at its end |
| AttachmentRules.RenamedKeepsType | src-tauri/src/commands_conversation.rs:2154-2165 | a renamed file keeps the type that was checked |
| AttachmentBatch.CheckFile | src-tauri/src/commands_conversation.rs:2149-2181 | the checks of one file in order |
| AttachmentRules.CheckIs | src-tauri/src/commands_conversation.rs:2149-2181 | for each verdict on a file the exact condition: unreadable, of another type, too large, or passed with its name and bytes |
| AttachmentBatch.Directory.Materialize | src-tauri/src/commands_conversation.rs:2125-2204 | names, files on disk and the first failure of a batch, with what was written before it |
| AttachmentBatch.AcceptedIff | src-tauri/src/commands_conversation.rs:2129-2188 | exactly which batches are accepted |
| AttachmentRules.FailureIs | src-tauri/src/commands_conversation.rs:2129-2188 | the first file decides that fails its own checks or with which the sizes exceed 100 MiB; more than ten files fail as such |
| AttachmentBatch.AssignedDistinct | src-tauri/src/commands_conversation.rs:2147-2204 | the names of a batch are pairwise distinct ignoring case |
| AttachmentBatch.BasesKeptIff | src-tauri/src/commands_conversation.rs:2147-2204 | a batch keeps all base names if and only if no two are equal ignoring case |
| AttachmentBatch.NothingOverwritten | src-tauri/src/commands_conversation.rs:2190-2197 | every attachment's bytes are on disk under its name, and other files are unchanged |
| Frontmatter.ScanForDelimiter | src/frontmatter.rs:154-184 | the loop that jumps three bytes past each rejected candidate finds the first delimiter line |
| Frontmatter.ScanIsLinewise | src/frontmatter.rs:154-184 | the line-wise specification and the scan's own test pick the same least position |
| Frontmatter.Split | src/frontmatter.rs:154-184 | front matter and body as the line-wise specification splits them |
| Frontmatter.RenderField | src/frontmatter.rs:295-317 | a field printed as its lines, for every preferred style and line ending |
| Frontmatter.RenderDocument | src/frontmatter.rs:51-65 | a document printed as delimiter, fields, delimiter and body |
| Frontmatter.ParseSources | src/frontmatter.rs:209-228 | the loop over fields computes the sources; later fields win |
| FrontmatterTheorems.SplitReturnsBody | src/frontmatter.rs:51-184 | splitting a printed document returns every body unchanged, delimiter lines in it included |
| FrontmatterTheorems.PrintedLinesReadBack | src/frontmatter.rs:261-268 | printed lines are segmented back one by one, less one carriage return each |
| FrontmatterTheorems.SourcesRecovered | src/frontmatter.rs:209-228 | reading printed lines recovers field after field |
| FrontmatterTheorems.ReadBackIff | src/frontmatter.rs:230-323 | a block value is read back up to trailing line feeds if and only if no line ends in a carriage return |
| FrontmatterTheorems.FieldSurvivesIff | src/frontmatter.rs:51-323 | print, split, segment and extract: every field of any document comes back under its key, a multi-line value unchanged under exactly that condition |
| FrontmatterTheorems.SingleLineSurvivesIff | src/frontmatter.rs:51-323 | a single-line value comes back as the parsed field says; without one it comes back trimmed, unchanged by that exactly if it has neither quotes nor backslashes |
| FrontmatterTheorems.ScalarDenotes | src/frontmatter.rs:325-336 | every printed scalar denotes its value, and is quoted exactly if it is empty or has a special character |
| FrontmatterTheorems.StyledValue | src/frontmatter.rs:230-317 | a field printed in a preferred block style is read back like any block |
| FrontmatterTheorems.IndentForms | src/frontmatter.rs:319-323 | one level of indentation, two blanks or a tab, is taken off a line of a block |
| FrontmatterTheorems.QuoteForms | src/frontmatter.rs:338-348 | quotes of either kind that enclose a value are taken off, and nothing else |
| FrontmatterTheorems.CarriageReturnIsLost | src/frontmatter.rs:51-323 | a value with a line that ends in a carriage return, which comes back changed |
| PromptJournal.Parse | src/personal_analytics.rs:1397-1459 | the fold over lines and the loop over turns compute the facts that each turn's own lines determine |
| PromptJournal.StartsMayRepeat | src/personal_analytics.rs:1410-1422 | usages and turns depend only on each turn's completions; start lines may be reordered or repeated |
| PromptJournal.ReinterleavingKeepsFacts | src/personal_analytics.rs:1397-1459 | re-interleaving that keeps the order within turns gives the same facts |
| PromptJournal.OneUsagePerTurn | src/personal_analytics.rs:1423-1459 | each completed turn contributes exactly one usage, its last; other turns none |
| PromptJournal.OneFactPerTurn | src/personal_analytics.rs:1440-1457 | every turn with a dated line has exactly one fact, dated by its latest completion or else its latest start |
| PromptJournal.RecognizedCounts | src/personal_analytics.rs:1400-1408 | lines count as recognized unless blank or unreadable |
| ProjectionCounts.CountDirect | src/personal_analytics.rs:956-978 | the five counters of direct replies |
| ProjectionCounts.DirectConserved | src/personal_analytics.rs:956-978 | started replies are completed, failed, cancelled or unknown |
| ProjectionCounts.ReplyCounts | src/personal_analytics.rs:956-978 | which counters one more reply raises |
| ProjectionCounts.RetriedIff | src/personal_analytics.rs:1084-1091 | a group is retried exactly if it has two nodes, and recovered exactly if one of them succeeded, too |
| ProjectionCounts.CountGroups | src/personal_analytics.rs:1076-1083 | size, first node and recovery of each retry group |
| ProjectionCounts.CountCalls | src/personal_analytics.rs:1092-1104 | calls, zero-filled calls and capped durations of each node id |
| ProjectionCounts.ChargeRetries | src/personal_analytics.rs:1105-1109 | each retried group charges its surplus to its first node's id |
| ProjectionCounts.Project | src/personal_analytics.rs:1076-1109 | the node statistics and the numbers of retried and recovered groups |
| ProjectionCounts.CountsConserved | src/personal_analytics.rs:1076-1109 | calls add up to nodes, retries to nodes minus groups, calls are measured or zero-filled, recovered ≤ retried ≤ groups |
| ExitCoordinator.Coordinator.BeginMainWindowClose | src-tauri/src/desktop_lifecycle.rs:94-105 | closing the window alone is allowed only while running |
| ExitCoordinator.Coordinator.CancelMainWindowClose | src-tauri/src/desktop_lifecycle.rs:107-113 | undoes a window close and nothing else |
| ExitCoordinator.Coordinator.BeginCleanup | src-tauri/src/desktop_lifecycle.rs:115-129 | cleanup begins only from a state that is not ending |
| ExitCoordinator.Coordinator.OnExitRequested | src-tauri/src/desktop_lifecycle.rs:131-161 | the answer and the new state for every state |
| ExitCoordinator.Coordinator.ResolveExit | src-tauri/src/desktop_lifecycle.rs:163-185 | a decision counts exactly for the held request |
| ExitCoordinator.Coordinator.CancelExpiredRequest | src-tauri/src/desktop_lifecycle.rs:187-200 | a timer cancels exactly the held request |
| ExitCoordinator.Coordinator.MarkReadyToExit | src-tauri/src/desktop_lifecycle.rs:202-209 | the end of cleanup and the action it returns |
| ExitCoordinator.RunsAreSafe | src-tauri/src/desktop_lifecycle.rs:94-209 | in every run: cleanup started at most once, an id held exactly while awaiting the frontend, a held request always has its one timer |
| ExitCoordinator.EndIsFinal | src-tauri/src/desktop_lifecycle.rs:131-209 | ready-to-exit is absorbing and entered only from cleaning by the end of cleanup; cleaning leads nowhere else |
| ExitCoordinator.StaleHasNoEffect | src-tauri/src/desktop_lifecycle.rs:163-200 | messages about an id that is not held change nothing |
| ExitCoordinator.OldIdsStayRetired | src-tauri/src/desktop_lifecycle.rs:131-209 | an id once dropped is never held again, so it cannot affect a newer request |
| ExitCoordinator.WaysIntoCleaning | src-tauri/src/desktop_lifecycle.rs:226-308 | the only three events that enter cleaning, and the action each leaves |
| ExitCoordinator.FinalActionIsAsked | src-tauri/src/desktop_lifecycle.rs:226-412 | the final action is the one carried by the event that entered cleaning, or by the request it lets proceed |
| ExitCoordinator.EnteredOnce | src-tauri/src/desktop_lifecycle.rs:94-209 | cleaning is entered at most once in a run |
| ExitProgress.AllowedIffCleaned | src-tauri/src/desktop_lifecycle.rs:139-140 | the application may exit at once exactly if its cleanup has been done |
| ExitProgress.RequestAnswered | src-tauri/src/desktop_lifecycle.rs:131-161 | a request while running asks the frontend if there is a window and starts the one cleanup if there is none; at other times what it answers and changes |
| ExitProgress.DecisionAnswered | src-tauri/src/desktop_lifecycle.rs:163-185 | a decision counts exactly for the held request, and then says whether to clean up |
| ExitProgress.ProceedingCleans | src-tauri/src/desktop_lifecycle.rs:175-178 | after any run that holds a request, proceeding starts exactly one cleanup, with the action of that request |
| ExitProgress.CancellingRestores | src-tauri/src/desktop_lifecycle.rs:179-200 | cancelling the held request, or its expiry, leads back to running with no request and no cleanup |
| ExitProgress.ClosingTakenBack | src-tauri/src/desktop_lifecycle.rs:94-113 | closing the window alone begins from running only and can be taken back |
| ExitProgress.ClosingWindowCleans | src-tauri/src/desktop_lifecycle.rs:115-129 | closing the window for good starts the one cleanup to exit, unless it was started before |
| ExitProgress.CleaningEnds | src-tauri/src/desktop_lifecycle.rs:382-411 | once cleaning, whatever else happens, cleanup can end and then the application is ready and has done the action |
| ExitProgress.ProceedingEnds | src-tauri/src/desktop_lifecycle.rs:163-209 | a request that is let proceed ends with the action it asked for |

## Left out

- JSON text and serde: graphs are datatypes with optional fields, other fields are one payload string; only the decoding failures that depend on modelled fields are modelled.
- Git, path existence, canonical paths, project ids of paths, digests and UUIDs: functions or parameters of an environment. Digests are assumed to separate only the identities that occur in the graph at hand. Windows case folding of paths and ids is not modelled.
- Files: a disk is a map with atomic writes, keyed by node id for leaf files and by name for attachments; write errors of the operating system, locks, and two ids that name one file are not modelled.
- Graph proposals, and the wording of errors; the graph validators other than those of run, node, group, workspace and topology.
- GraphDocument.Document.MigrateV01: the document is not described after a failure, because the caller drops it.
- refresh_dynamic_current_leaf_ids and dynamic_leaf_is_active: would only add easy members.
- WorkflowInjection.ExtractionUndoesInjectionIff: stated for workflows outside the built-in templates, because a template renames every slot.
- Provider capabilities: a function that gives the models, permissions and options of an agent.
- Registry.Store.PinConversation: the pin number wraps around at 64 bits, as in a build without overflow checks; a build with them panics instead.
- The registry's transactions start from the state they load; what commands do outside them (manifests, connections, task files) is not modelled.
- IdentityMigration.Execute: directory moves, manifest checks and locator rewrites, their errors, and writing the state are not modelled; only the plan, its collision check and the rewriting of the state are.
- IdentityMigration.BuildPlan: the items come in any order; they are not sorted by id, and old ids and directories are not recorded in them.
- IdentityMigration.MigrateModes: sorting by a boolean key is written as the entries without preference followed by those with it.
- Dibv5.Encode: allocation failure and 32-bit targets are not modelled.
- Base64.Encode: shifts and masks are written as divisions and remainders.
- AttachmentNames.UniqueName: case folding is taken character by character, with digits, hyphens and dots fixed; the context-sensitive final sigma is not modelled. The index is unbounded.
- `update_frontmatter_document` is not modelled; it prints with the style and line ending of the old document, which `RenderField` covers.
- YAML: the parsed fields are an arbitrary map; a byte order mark is not stripped.
- PromptJournal.Parse: lines are given as already recognised or not; read errors are not modelled.
- ProjectionCounts.Project: run outcomes, terminal signals, averages, shares, evidence and the truncation to top entries are not modelled; sums of counters do not overflow.
- Exit coordinator: threads and sleeping are messages that may arrive at any time; poisoned locks, windows and the cleanup itself are not modelled. Asking a system or a restart exit after ready-to-exit is only answered.
