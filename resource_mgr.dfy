/** The render resource manager façade: one validity flag, the two
    collaborator pointers, one registry, seven typed pools and the member list
    of removed ids, all updated in place. Each operation is proved to follow
    the matching step of module MgrSpec. */
module ResourceMgr {
  import opened Handles
  import Pools
  import Registry
  import opened Setups
  import MgrSpec

  class ResourceMgr {
    var isValid: bool
    var stateWrapper: object?
    var displayMgr: object?
    var resourceRegistry: Registry.Registry
    var meshPool: Pools.Pool
    var shaderPool: Pools.Pool
    var programBundlePool: Pools.Pool
    var texturePool: Pools.Pool
    var stateBlockPool: Pools.Pool
    var depthStencilStatePool: Pools.Pool
    var blendStatePool: Pools.Pool
    var removedIds: seq<Id>

    /** The registry and the seven pools as one value. */
    ghost function Model(): MgrSpec.Resources
      reads this
    {
      MgrSpec.Resources(resourceRegistry,
        MgrSpec.PoolSet(meshPool, shaderPool, programBundlePool, texturePool,
                        stateBlockPool, depthStencilStatePool, blendStatePool))
    }

    /** The object invariant: the model is well formed (each pool serves its
        own type, every registered id was issued by its pool). */
    ghost predicate Consistent()
      reads this
    {
      MgrSpec.Wf(Model())
    }

    constructor ()
      ensures Consistent() && !isValid
      ensures stateWrapper == null && displayMgr == null
      ensures Model() == MgrSpec.Blank() && removedIds == []
    {
      isValid := false;
      stateWrapper := null;
      displayMgr := null;
      resourceRegistry := Registry.Empty();
      meshPool := Pools.Empty(Mesh);
      shaderPool := Pools.Empty(Shader);
      programBundlePool := Pools.Empty(ProgramBundle);
      texturePool := Pools.Empty(Texture);
      stateBlockPool := Pools.Empty(StateBlock);
      depthStencilStatePool := Pools.Empty(DepthStencilState);
      blendStatePool := Pools.Empty(BlendState);
      removedIds := [];
    }

    /** Sets up the pools and the registry, empty, and records the two
        collaborators. */
    method Setup(stWrapper: object?, dspMgr: object?)
      requires !isValid
      requires stWrapper != null && dspMgr != null
      modifies this
      ensures Consistent() && isValid
      ensures stateWrapper == stWrapper && displayMgr == dspMgr
      ensures Model() == MgrSpec.Blank() && removedIds == old(removedIds)
    {
      isValid := true;
      stateWrapper := stWrapper;
      displayMgr := dspMgr;
      meshPool := Pools.Empty(Mesh);
      shaderPool := Pools.Empty(Shader);
      programBundlePool := Pools.Empty(ProgramBundle);
      texturePool := Pools.Empty(Texture);
      stateBlockPool := Pools.Empty(StateBlock);
      depthStencilStatePool := Pools.Empty(DepthStencilState);
      blendStatePool := Pools.Empty(BlendState);
      resourceRegistry := Registry.Empty();
      assert Model() == MgrSpec.Blank();
    }

    /** Tears the registry and the pools down and clears the state wrapper;
        the display manager pointer is left as it was. */
    method Discard()
      requires isValid
      modifies this
      ensures Consistent() && !isValid
      ensures stateWrapper == null && displayMgr == old(displayMgr)
      ensures Model() == MgrSpec.Blank() && removedIds == old(removedIds)
    {
      isValid := false;
      resourceRegistry := Registry.Empty();
      blendStatePool := Pools.Empty(BlendState);
      depthStencilStatePool := Pools.Empty(DepthStencilState);
      stateBlockPool := Pools.Empty(StateBlock);
      texturePool := Pools.Empty(Texture);
      programBundlePool := Pools.Empty(ProgramBundle);
      shaderPool := Pools.Empty(Shader);
      meshPool := Pools.Empty(Mesh);
      stateWrapper := null;
    }

    method IsValid() returns (r: bool)
      ensures r <==> isValid
    {
      r := isValid;
    }

    /** Polls the two asynchronous pools; `meshDone` and `textureDone` are the
        loads their loaders have completed since the last call. */
    method Update(meshDone: map<Id, State>, textureDone: map<Id, State>)
      requires Consistent() && isValid
      modifies this
      ensures Consistent() && isValid
      ensures Model() == MgrSpec.Update(old(Model()), meshDone, textureDone)
      ensures stateWrapper == old(stateWrapper) && displayMgr == old(displayMgr)
      ensures removedIds == old(removedIds)
    {
      assert Pools.Wf(Model().pools.Get(Mesh)) && Pools.Wf(Model().pools.Get(Texture));
      meshPool := Pools.Update(meshPool, meshDone);
      texturePool := Pools.Update(texturePool, textureDone);
    }

    /** The pool that serves type `t`. */
    function PoolOf(t: ResourceType): (p: Pools.Pool)
      requires Pooled(t)
      reads this
      ensures p == Model().pools.Get(t)
    {
      match t
      case Mesh => meshPool
      case Texture => texturePool
      case Shader => shaderPool
      case ProgramBundle => programBundlePool
      case StateBlock => stateBlockPool
      case DepthStencilState => depthStencilStatePool
      case BlendState => blendStatePool
    }

    /** Replaces the pool that serves type `t`. */
    method SetPool(t: ResourceType, p: Pools.Pool)
      requires Pooled(t)
      modifies this
      ensures Model() == old(Model()).(pools := old(Model()).pools.Set(t, p))
      ensures isValid == old(isValid) && removedIds == old(removedIds)
      ensures stateWrapper == old(stateWrapper) && displayMgr == old(displayMgr)
    {
      match t
      case Mesh => meshPool := p;
      case Texture => texturePool := p;
      case Shader => shaderPool := p;
      case ProgramBundle => programBundlePool := p;
      case StateBlock => stateBlockPool := p;
      case DepthStencilState => depthStencilStatePool := p;
      case BlendState => blendStatePool := p;
    }

    /** Creates (or finds) the resource a descriptor names. `built` is the
        state the type's factory leaves a newly assigned resource in. */
    method CreateResource(setup: ResourceSetup, built: State) returns (r: Outcome<Id>)
      requires Consistent() && isValid
      requires Assignable(setup.Type(), built)
      modifies this
      ensures Consistent() && isValid
      ensures (r, Model()) == MgrSpec.Create(old(Model()), setup, built)
      ensures stateWrapper == old(stateWrapper) && displayMgr == old(displayMgr)
      ensures removedIds == old(removedIds)
    {
      var loc := setup.loc;
      var resId := Registry.Lookup(resourceRegistry, loc);
      if resId.IsValid() {
        if resId.Type() != setup.Type() {
          return Fatal(TypeMismatch);
        }
        return Ok(resId);
      }
      ghost var s := Model();
      var t := setup.Type();
      var alloc := Pools.AllocId(PoolOf(t));
      resId := alloc.0;
      SetPool(t, alloc.1);
      var deps := [];
      if setup.ProgramBundleSetup? {
        deps := CollectShaderDeps(setup.programs);
      }
      resourceRegistry := Registry.Add(resourceRegistry, loc, resId, deps);
      SetPool(t, Pools.Assign(PoolOf(t), resId, built));
      assert (resId, Model()) == MgrSpec.CreateMiss(s, setup, built);
      r := Ok(resId);
    }

    /** The id registered under `loc`, or the invalid id. */
    method LookupResource(loc: Locator) returns (r: Id)
      requires Consistent() && isValid
      ensures r.IsValid() <==> Registry.Registered(resourceRegistry, loc)
      ensures r.IsValid() ==>
        r in resourceRegistry.entries && resourceRegistry.entries[r].loc == loc &&
        Pooled(r.Type()) && Pools.Issued(PoolOf(r.Type()), r)
    {
      r := Registry.Lookup(resourceRegistry, loc);
    }

    /** Releases `resId` in the registry and destroys, in list order, every id
        the registry reports as removed, each in the pool of its type. */
    method DiscardResource(resId: Id)
      requires Consistent() && isValid
      modifies this
      ensures Consistent() && isValid
      ensures Model() == MgrSpec.DiscardResource(old(Model()), resId)
      ensures removedIds == Registry.Release(old(resourceRegistry), resId).removedIds
      ensures stateWrapper == old(stateWrapper) && displayMgr == old(displayMgr)
    {
      var rel := Registry.Release(resourceRegistry, resId);
      MgrSpec.RemovedIdsArePooled(Model(), resId);
      resourceRegistry := rel.registry;
      removedIds := rel.removedIds;
      if rel.count > 0 {
        UnassignRemoved();
      }
    }

    /** The loop of `DiscardResource`: each id of the member `removedIds` is
        unassigned, in list order, in the pool of its type. */
    method UnassignRemoved()
      requires MgrSpec.PoolsWf(Model().pools) && MgrSpec.AllPooled(removedIds)
      modifies this
      ensures Model().pools == MgrSpec.UnassignAll(old(Model()).pools, old(removedIds))
      ensures resourceRegistry == old(resourceRegistry)
      ensures removedIds == old(removedIds) && isValid == old(isValid)
      ensures stateWrapper == old(stateWrapper) && displayMgr == old(displayMgr)
    {
      ghost var s := Model();
      var i := 0;
      while i < |removedIds|
        invariant 0 <= i <= |removedIds|
        invariant removedIds == old(removedIds) && resourceRegistry == old(resourceRegistry)
        invariant isValid == old(isValid)
        invariant stateWrapper == old(stateWrapper) && displayMgr == old(displayMgr)
        invariant Model().pools == MgrSpec.UnassignAll(s.pools, removedIds[..i])
      {
        assert removedIds[..i + 1][..i] == removedIds[..i];
        Unassign(removedIds[i]);
        i := i + 1;
      }
      assert removedIds[..|removedIds|] == removedIds;
    }

    /** The body of the discard loop: `removeId` is unassigned in the pool its
        type tag selects. */
    method Unassign(removeId: Id)
      requires Pooled(removeId.Type()) && Pools.Wf(PoolOf(removeId.Type()))
      modifies this
      ensures Model() == old(Model()).(pools := old(Model()).pools.Set(removeId.Type(),
                Pools.Unassign(old(Model()).pools.Get(removeId.Type()), removeId)))
      ensures isValid == old(isValid) && removedIds == old(removedIds)
      ensures stateWrapper == old(stateWrapper) && displayMgr == old(displayMgr)
    {
      match removeId.Type() {
        case Texture =>
          texturePool := Pools.Unassign(texturePool, removeId);
        case Mesh =>
          meshPool := Pools.Unassign(meshPool, removeId);
        case Shader =>
          shaderPool := Pools.Unassign(shaderPool, removeId);
        case ProgramBundle =>
          programBundlePool := Pools.Unassign(programBundlePool, removeId);
        case StateBlock =>
          stateBlockPool := Pools.Unassign(stateBlockPool, removeId);
        case ConstantBlock =>
          assert false;
        case DepthStencilState =>
          depthStencilStatePool := Pools.Unassign(depthStencilStatePool, removeId);
        case BlendState =>
          blendStatePool := Pools.Unassign(blendStatePool, removeId);
        case InvalidType =>
          assert false;
      }
    }

    /** The lifecycle state of `resId`, read from the pool of its type. */
    method QueryResourceState(resId: Id) returns (r: Outcome<State>)
      requires Consistent() && isValid
      ensures r == MgrSpec.QueryState(Model(), resId)
    {
      match resId.Type() {
        case Texture =>
          return Ok(Pools.QueryState(texturePool, resId));
        case Mesh =>
          return Ok(Pools.QueryState(meshPool, resId));
        case Shader =>
          return Ok(Pools.QueryState(shaderPool, resId));
        case ProgramBundle =>
          return Ok(Pools.QueryState(programBundlePool, resId));
        case StateBlock =>
          return Ok(Pools.QueryState(stateBlockPool, resId));
        case ConstantBlock =>
          return Fatal(Unimplemented);
        case DepthStencilState =>
          return Ok(Pools.QueryState(depthStencilStatePool, resId));
        case BlendState =>
          return Ok(Pools.QueryState(blendStatePool, resId));
        case InvalidType =>
          return Fatal(UnknownType);
      }
    }
  }
}
