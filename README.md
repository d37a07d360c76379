# Render resource manager (Oryol `resourceMgr`) in Dafny

This project models the render resource manager façade `resourceMgr` of the
Oryol engine (`code/Modules/Render/Core/resourceMgr.cc`). The manager owns one
validity flag, a state-wrapper and a display-manager pointer, one resource
registry and seven typed pools: mesh, shader, program bundle, texture, state
block, depth-stencil state and blend state. It does four jobs:

- It deduplicates creation. A locator found in the registry returns the
  registered id. Otherwise the pool of the descriptor's type allocates an id,
  the registry records it, and the pool assigns it.
- It collects the valid vertex and fragment shader ids of a program bundle as
  the bundle's dependency list.
- It routes discards. Every id the registry reports as removed is unassigned
  in the pool matching its type tag.
- It routes state queries by type tag, and per-frame updates to the two pools
  that load asynchronously (mesh and texture).

Layout:

- `handles.dfy` (module `Handles`): type tags, ids, locators, lifecycle
  states, and `Outcome` for operations that stop at a fatal assertion.
- `pool.dfy` (module `Pools`): the abstract pool. Ids carry a unique stamp
  that is never reused, and every issued id has a lifecycle state.
- `registry.dfy` (module `Registry`): the abstract registry. Shared locators
  map to ids, and each registered id has an entry with its locator, its
  dependency ids and its use count.
- `setups.dfy` (module `Setups`): creation descriptors and the program-bundle
  dependency loop.
- `mgr_spec.dfy` (module `MgrSpec`): the manager's state as a value, one step
  function per operation, and the lemmas relating the steps.
- `resource_mgr.dfy` (module `ResourceMgr`): class `ResourceMgr`, with the
  source's fields updated in place. Each method is proved to perform the
  matching `MgrSpec` step.

How the source's checks are modelled:

- The `o_assert`s on `isValid` and on the non-null collaborators are
  preconditions, because they are demands on callers.
- The hit-path type check, and the `ConstantBlock` and default cases of
  `QueryResourceState`, are modelled as a `Fatal` outcome.
- In `DiscardResource`, the `ConstantBlock` and default cases are proved
  unreachable. The registry only holds ids that the seven pools issued, and
  the registry's release only reports registered ids.

Two details of the code shape the model:

- A locator hit returns the registered id and takes no further reference
  (lines 114-116). `MgrSpec.OneDiscardAfterTwoCreates` proves the
  consequence: one discard destroys a resource that was created twice.
- `Discard` clears `stateWrapper` but not `displayMgr` (line 89).

## Model

| member | source | states |
|---|---|---|
| `Setups.ResourceSetup.Type` | code/Modules/Render/Core/resourceMgr.cc:109-280 | each descriptor kind creates resources of one pooled type; only the program-bundle kind creates program bundles |
| `Pools.Empty` | code/Modules/Render/Core/resourceMgr.cc:51-64 | a freshly set-up pool has issued no id, and every id reads `Initial` in it |
| `Pools.QueryState` | code/Modules/Render/Core/resourceMgr.cc:335-350 | the state of an id in its pool; an id the pool never issued reads `Initial` |
| `Pools.AllocId` | code/Modules/Render/Core/resourceMgr.cc:119 | the new id has the pool's type and was never issued before; it is in `Setup`; no other id's state changes |
| `Pools.Assign` | code/Modules/Render/Core/resourceMgr.cc:121 | the assigned id reads the state its factory produced; no other id's state changes; the set of issued ids is unchanged |
| `Pools.Unassign` | code/Modules/Render/Core/resourceMgr.cc:298 | the unassigned id reads `Initial` again and stays issued, so it is never handed out again; no other id changes |
| `Pools.Update` | code/Modules/Render/Core/resourceMgr.cc:104-105 | only pending resources change, and only to the completed state their loader reported |
| `Pools.StaleIdNeverReissued` | code/Modules/Render/Core/resourceMgr.cc:298-301 | an id kept across an unassign and a new allocation differs from the newly allocated id, and reads `Initial` after the unassign and after the allocation |
| `Registry.Empty` | code/Modules/Render/Core/resourceMgr.cc:66 | a freshly set-up registry holds no entry and finds no locator |
| `Registry.Lookup` | code/Modules/Render/Core/resourceMgr.cc:113 | the result is valid exactly when some registered id is stored under the (shared) locator, and then it is that id |
| `Registry.Add` | code/Modules/Render/Core/resourceMgr.cc:222 | the new entry holds the locator and the dependency ids with one use; each registered dependency gains one use per mention and is otherwise unchanged; a shared locator now finds the new id; every other locator finds what it found before |
| `Registry.Release` | code/Modules/Render/Core/resourceMgr.cc:293 | the count equals the number of removed ids; every removed id was registered and no longer is; surviving entries keep their locator and dependencies and at most their use count; the last use of a registered id removes it at the head of the list; any other use only lowers its count and removes nothing |
| `Registry.ReleaseAll` | code/Modules/Render/Core/resourceMgr.cc:293 | the cascade over a list of ids: the count is the number of removed ids; every removed id was registered and is gone; every surviving entry keeps its locator and dependencies, and its use count does not grow |
| `Registry.ReleasedLocatorNotFound` | code/Modules/Render/Core/resourceMgr.cc:293 | after the last use of an id is released its shared locator finds nothing; after any other use it still finds the id |
| `Setups.CollectShaderDeps` | code/Modules/Render/Core/resourceMgr.cc:210-221 | the loop builds exactly the dependency list `ShaderDeps` of the programs |
| `Setups.ShaderDepsAppend` | code/Modules/Render/Core/resourceMgr.cc:214-221 | the list follows program order: programs `a` then `b` give the list of `a` then the list of `b` |
| `Setups.ShaderDepsLength` | code/Modules/Render/Core/resourceMgr.cc:212-213 | the list has at most two ids per program, and exactly two per program exactly when every shader id is valid |
| `Setups.ShaderDepsMembers` | code/Modules/Render/Core/resourceMgr.cc:215-220 | an id is a dependency exactly when it is valid and is the vertex or fragment shader of some program, so invalid ids never appear |
| `MgrSpec.PoolSet.Set` | code/Modules/Render/Core/resourceMgr.cc:296-324 | replacing one type's pool leaves every other type's pool as it was |
| `MgrSpec.EmptyPools` | code/Modules/Render/Core/resourceMgr.cc:51-64 | after setup every pool is well formed, serves its own type and has issued nothing |
| `MgrSpec.Blank` | code/Modules/Render/Core/resourceMgr.cc:42-90 | after setup or teardown nothing is registered, no locator is found and every id reads `Initial` |
| `MgrSpec.QueryState` | code/Modules/Render/Core/resourceMgr.cc:330-356 | a query succeeds exactly for the seven pooled types; a `ConstantBlock` id is a fatal failure |
| `MgrSpec.CreateMiss` | code/Modules/Render/Core/resourceMgr.cc:118-123 | a miss issues an id of the descriptor's type that no pool issued before, registers it with the descriptor's dependencies, and assigns it; no other pool changes |
| `MgrSpec.Create` | code/Modules/Render/Core/resourceMgr.cc:109-124 | on a hit the state is unchanged and the result is the registered id, or a fatal failure when its type differs; on a miss the new id is not yet registered, its locator now finds it, it reads the factory's state, and every other id's state is unchanged |
| `MgrSpec.UnassignAll` | code/Modules/Render/Core/resourceMgr.cc:295-325 | unassigning a list keeps every pool well formed and leaves the issued ids of every pool unchanged |
| `MgrSpec.DiscardResource` | code/Modules/Render/Core/resourceMgr.cc:290-327 | the registry is the released one; when the release reports 0, no pool is touched |
| `MgrSpec.BundleKeepsShaderAlive` | code/Modules/Render/Core/resourceMgr.cc:211-222 | a program bundle holds a use of each registered shader it lists, so discarding such a shader afterwards reports 0, touches no pool and keeps the shader registered |
| `MgrSpec.Update` | code/Modules/Render/Core/resourceMgr.cc:99-106 | the registry and the five synchronous pools are unchanged; only pending resources can change state |
| `MgrSpec.RemovedIdsArePooled` | code/Modules/Render/Core/resourceMgr.cc:312-323 | every id a release reports has one of the seven pooled types, so a discard never reaches the `ConstantBlock` or default case |
| `MgrSpec.UnassignAllQuery` | code/Modules/Render/Core/resourceMgr.cc:295-325 | after unassigning a list, a listed id reads `Initial` in its pool and every other id keeps its state |
| `MgrSpec.UnassignAllUntouched` | code/Modules/Render/Core/resourceMgr.cc:296-324 | a pool whose type no listed id has is unchanged: each id goes only to its own pool |
| `MgrSpec.UnassignAllAppend` | code/Modules/Render/Core/resourceMgr.cc:295 | unassignment follows list order: the list `a + b` is `a` followed by `b` |
| `MgrSpec.DiscardEffect` | code/Modules/Render/Core/resourceMgr.cc:293-326 | after a discard, each removed id reads `Initial` and is no longer registered; every id not removed keeps its state |
| `MgrSpec.CreateTwiceSameId` | code/Modules/Render/Core/resourceMgr.cc:112-123 | a second creation with the same shared locator and type returns the first id and changes nothing, so the pool allocates only once |
| `MgrSpec.NonSharedAlwaysNew` | code/Modules/Render/Core/resourceMgr.cc:112-123 | a creation with a non-shared locator always misses and issues an id no pool issued before |
| `MgrSpec.OneDiscardAfterTwoCreates` | code/Modules/Render/Core/resourceMgr.cc:113-116 | the hit path takes no reference: after two creations under one locator, one discard destroys the resource and frees the locator |
| `MgrSpec.CreateDiscardRoundTrip` | code/Modules/Render/Core/resourceMgr.cc:118-123 | a new resource reads the state its factory produced, and discarding it returns it to `Initial` |
| `ResourceMgr.ResourceMgr.constructor` | code/Modules/Render/Core/resourceMgr.cc:16-21 | a new manager is not valid, has null collaborators, and holds an empty registry and empty pools |
| `ResourceMgr.ResourceMgr.Setup` | code/Modules/Render/Core/resourceMgr.cc:41-67 | requires a manager that is not valid and two non-null collaborators; afterwards it is valid, records both collaborators, and holds empty pools and an empty registry |
| `ResourceMgr.ResourceMgr.Discard` | code/Modules/Render/Core/resourceMgr.cc:69-90 | requires a valid manager; afterwards it is not valid, the registry and pools are empty, `stateWrapper` is null, and `displayMgr` is unchanged |
| `ResourceMgr.ResourceMgr.IsValid` | code/Modules/Render/Core/resourceMgr.cc:92-96 | returns the validity flag |
| `ResourceMgr.ResourceMgr.Update` | code/Modules/Render/Core/resourceMgr.cc:98-106 | requires a valid manager and performs `MgrSpec.Update`: only the mesh and texture pools are polled |
| `ResourceMgr.ResourceMgr.SetPool` | code/Modules/Render/Core/resourceMgr.cc:119-121 | replacing the pool of one type changes that member only: the model's pool set is updated at that type, and nothing else changes |
| `ResourceMgr.ResourceMgr.PoolOf` | code/Modules/Render/Core/resourceMgr.cc:333-350 | the member pool chosen for a type tag is the pool that serves that type |
| `ResourceMgr.ResourceMgr.CreateResource` | code/Modules/Render/Core/resourceMgr.cc:109-280 | requires a valid manager; the result and the new state are those of `MgrSpec.Create`, for every descriptor kind; collaborators unchanged |
| `ResourceMgr.ResourceMgr.LookupResource` | code/Modules/Render/Core/resourceMgr.cc:283-287 | requires a valid manager; changes nothing; returns a valid id exactly when the locator is registered, and that id was issued by the pool of its type |
| `ResourceMgr.ResourceMgr.DiscardResource` | code/Modules/Render/Core/resourceMgr.cc:290-327 | requires a valid manager; the member `removedIds` holds the release's list, and the new state is `MgrSpec.DiscardResource`: each removed id is unassigned, in list order, in its own pool |
| `ResourceMgr.ResourceMgr.UnassignRemoved` | code/Modules/Render/Core/resourceMgr.cc:295-325 | the loop over the member `removedIds` leaves the pools equal to `MgrSpec.UnassignAll` of the list and changes nothing else |
| `ResourceMgr.ResourceMgr.Unassign` | code/Modules/Render/Core/resourceMgr.cc:296-324 | the switch on the type tag unassigns the id in the pool of its type only; the `ConstantBlock` and default cases cannot be reached |
| `ResourceMgr.ResourceMgr.QueryResourceState` | code/Modules/Render/Core/resourceMgr.cc:330-356 | requires a valid manager; changes nothing; returns `MgrSpec.QueryState` of the id: the state from the pool of its type, or a fatal failure for `ConstantBlock` and unknown tags |

## Left out

- `Registry.Release`: the registry's source is not part of this model. Its
  body is a stand-in for a counting registry: a new entry starts with one
  use, each registered dependency gains one use per mention, a release drops
  one use, and the last use removes the entry and drops the uses it held on
  its dependencies. The manager's properties use only the contracts of
  `Add` and `Release`. The registry is also assumed to reset the member
  `removedIds` list on each release.
- `Registry.ReleaseAll`: that each listed id loses exactly one use, and that the ids are released in list order, belong to the stand-in body and are not part of its contract, because the registry's cascade is not part of this model.
- `Registry.Release`: releasing an id the registry does not hold is a no-op
  that reports 0 here, where the registry is meant to stop at a failed
  assertion. The manager passes the id through unchecked, so that assertion
  belongs to the registry, whose source is not part of this model.
- `Registry.Add`: the registry's capacity is not modelled.
- `Pools.AllocId`: pools are unbounded here. Slot indices, slot reuse, the
  generation counter and pool exhaustion are not modelled. A unique stamp per
  issued id stands for slot plus generation.
- The factories are foreign code, so the state a factory leaves a new resource
  in is a parameter (`built`) of `CreateResource`. Loads completed by loader
  threads are parameters (`meshDone`, `textureDone`) of `Update`.
- The two data-stream overloads of `CreateResource` (lines 127-142 and
  163-178) behave in the manager exactly like the plain ones. They differ only
  in what they pass to the factory, and the factory is not modelled. The one
  `CreateResource` method covers them.
- Creation descriptors keep only the locator and, for program bundles, the
  programs. All other descriptor contents go to the factories.
- `AttachLoader` (lines 29-38) attaches streaming loaders to factories. This is
  I/O plumbing.
- `createFullscreenQuadMesh` and `discardFullscreenQuadMesh` (lines 359-369)
  are direct factory calls.
- The factories' `Setup` and `Discard` calls are not modelled. Neither are the
  pool sizes, throttling values, registry capacity and debug tags passed in
  `Setup`.
- The destructor's assertion that the manager is no longer valid (lines 24-26)
  is not modelled, because Dafny objects have no destructor.
- A failed `o_assert` is modelled as it behaves in debug builds: a precondition
  or a `Fatal` outcome. The release-build fall-through of
  `QueryResourceState`, which returns `InvalidState`, is not modelled.
- `code/Modules/Synth/base/soundMgrBase.cc` is not part of this model.
