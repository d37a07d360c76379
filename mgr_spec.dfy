/** The resource manager's state as a value (its registry and its seven
    pools) and one step function per operation. The class
    in module ResourceMgr is proved to follow these steps; the lemmas here
    state what the steps promise across several calls. */
module MgrSpec {
  import opened Handles
  import Pools
  import Registry
  import opened Setups

  /** The seven pools, one per pooled type, in the order the manager sets
      them up. */
  datatype PoolSet = PoolSet(mesh: Pools.Pool, shader: Pools.Pool, programBundle: Pools.Pool,
                             texture: Pools.Pool, stateBlock: Pools.Pool,
                             depthStencilState: Pools.Pool, blendState: Pools.Pool)
  {
    /** The pool that serves type `t`. */
    function Get(t: ResourceType): Pools.Pool
      requires Pooled(t)
    {
      match t
      case Mesh => mesh
      case Shader => shader
      case ProgramBundle => programBundle
      case Texture => texture
      case StateBlock => stateBlock
      case DepthStencilState => depthStencilState
      case BlendState => blendState
    }

    /** Replaces the pool that serves type `t`; every other pool stays. */
    function Set(t: ResourceType, p: Pools.Pool): (ps: PoolSet)
      requires Pooled(t)
      ensures forall u :: Pooled(u) ==> ps.Get(u) == if u == t then p else Get(u)
    {
      match t
      case Mesh => this.(mesh := p)
      case Shader => this.(shader := p)
      case ProgramBundle => this.(programBundle := p)
      case Texture => this.(texture := p)
      case StateBlock => this.(stateBlock := p)
      case DepthStencilState => this.(depthStencilState := p)
      case BlendState => this.(blendState := p)
    }
  }

  datatype Resources = Resources(registry: Registry.Registry, pools: PoolSet)

  /** Each pool is well formed and tagged with the type it serves. */
  ghost predicate PoolsWf(pools: PoolSet)
  {
    forall t :: Pooled(t) ==> pools.Get(t).tag == t && Pools.Wf(pools.Get(t))
  }

  /** The manager invariant: every id in the registry was issued by the pool
      of its type. */
  ghost predicate Wf(s: Resources)
  {
    Registry.Wf(s.registry) && PoolsWf(s.pools) &&
    (forall id :: id in s.registry.entries ==>
       Pooled(id.Type()) && Pools.Issued(s.pools.Get(id.Type()), id))
  }

  function EmptyPools(): (pools: PoolSet)
    ensures PoolsWf(pools)
    ensures forall t, id :: Pooled(t) ==> !Pools.Issued(pools.Get(t), id)
  {
    PoolSet(Pools.Empty(Mesh), Pools.Empty(Shader), Pools.Empty(ProgramBundle),
            Pools.Empty(Texture), Pools.Empty(StateBlock),
            Pools.Empty(DepthStencilState), Pools.Empty(BlendState))
  }

  /** The state right after setup or teardown: nothing registered, nothing
      issued, every id reads as `Initial` in every pool. */
  function Blank(): (s: Resources)
    ensures Wf(s)
    ensures forall loc :: !Registry.Lookup(s.registry, loc).IsValid()
    ensures forall t, id :: Pooled(t) ==> Pools.QueryState(s.pools.Get(t), id) == Initial
  {
    Resources(Registry.Empty(), EmptyPools())
  }

  /** The state query, routed by the id's type tag. */
  function QueryState(s: Resources, id: Id): (r: Outcome<State>)
    requires Wf(s)
    ensures r.Ok? <==> Pooled(id.Type())
    ensures id.Type() == ConstantBlock ==> r == Fatal(Unimplemented)
  {
    match id.Type()
    case ConstantBlock => Fatal(Unimplemented)
    case InvalidType => Fatal(UnknownType)
    case _ => Ok(Pools.QueryState(s.pools.Get(id.Type()), id))
  }

  /** The miss path of creation: the pool of the descriptor's type issues a
      new id, the registry records it with the descriptor's dependencies,
      and the pool assigns it; no other pool changes. */
  function CreateMiss(s: Resources, setup: ResourceSetup, built: State): (res: (Id, Resources))
    requires Wf(s) && Assignable(setup.Type(), built)
    requires !Registry.Registered(s.registry, setup.loc)
    ensures Wf(res.1)
    ensures var (id, s') := res;
      id.Type() == setup.Type() &&
      id !in s.registry.entries &&
      (forall t :: Pooled(t) ==> !Pools.Issued(s.pools.Get(t), id)) &&
      s'.registry == Registry.Add(s.registry, setup.loc, id, SetupDeps(setup)) &&
      Pools.QueryState(s'.pools.Get(setup.Type()), id) == built &&
      (forall x :: x != id ==> Pools.QueryState(s'.pools.Get(setup.Type()), x) == Pools.QueryState(s.pools.Get(setup.Type()), x)) &&
      (forall t :: Pooled(t) && t != setup.Type() ==> s'.pools.Get(t) == s.pools.Get(t))
  {
    var t := setup.Type();
    var (id, issued) := Pools.AllocId(s.pools.Get(t));
    assert id !in s.registry.entries;
    var registry := Registry.Add(s.registry, setup.loc, id, SetupDeps(setup));
    var pool := Pools.Assign(issued, id, built);
    var pools := s.pools.Set(t, pool);
    assert PoolsWf(pools);
    forall x | x in registry.entries
      ensures Pooled(x.Type()) && Pools.Issued(pools.Get(x.Type()), x)
    {
      if x != id {
        assert x in s.registry.entries;
        if x.Type() == t {
          assert Pools.Issued(issued, x);
        }
      }
    }
    forall u | Pooled(u) ensures !Pools.Issued(s.pools.Get(u), id) {
      assert s.pools.Get(u).tag == u;
    }
    (id, Resources(registry, pools))
  }

  /** Creation. On a locator hit the registered id comes back (or the type
      check fails) and nothing changes; on a miss, `CreateMiss`. */
  function Create(s: Resources, setup: ResourceSetup, built: State): (res: (Outcome<Id>, Resources))
    requires Wf(s) && Assignable(setup.Type(), built)
    ensures Wf(res.1)
    ensures res.0.Ok? ==> res.0.value.Type() == setup.Type()
    ensures var hit := Registry.Lookup(s.registry, setup.loc);
      hit.IsValid() ==>
        res.1 == s && (res.0.Ok? <==> hit.Type() == setup.Type()) && (res.0.Ok? ==> res.0.value == hit)
    ensures var hit := Registry.Lookup(s.registry, setup.loc);
      !hit.IsValid() ==>
        res.0.Ok? &&
        var id := res.0.value;
        id !in s.registry.entries &&
        (setup.loc.IsShared() ==> Registry.Lookup(res.1.registry, setup.loc) == id) &&
        QueryState(res.1, id) == Ok(built) &&
        (forall x :: x != id ==> QueryState(res.1, x) == QueryState(s, x))
  {
    var hit := Registry.Lookup(s.registry, setup.loc);
    if hit.IsValid() then
      (if hit.Type() == setup.Type() then Ok(hit) else Fatal(TypeMismatch), s)
    else
      var (id, s') := CreateMiss(s, setup, built);
      (Ok(id), s')
  }

  /** Every id of the list has a pool. */
  predicate AllPooled(ids: seq<Id>)
  {
    forall i :: 0 <= i < |ids| ==> Pooled(ids[i].Type())
  }

  /** Unassigns each id of the list, in list order, in the pool of its type. */
  function UnassignAll(pools: PoolSet, ids: seq<Id>): (pools': PoolSet)
    requires PoolsWf(pools) && AllPooled(ids)
    ensures PoolsWf(pools')
    ensures forall t, x :: Pooled(t) ==> (Pools.Issued(pools'.Get(t), x) <==> Pools.Issued(pools.Get(t), x))
  {
    if ids == [] then pools
    else
      var x := ids[|ids| - 1];
      var before := UnassignAll(pools, ids[..|ids| - 1]);
      before.Set(x.Type(), Pools.Unassign(before.Get(x.Type()), x))
  }

  /** A resource discard: the registry releases the id, and when it reports
      removed ids each one is unassigned in its own pool. */
  function DiscardResource(s: Resources, id: Id): (s': Resources)
    requires Wf(s)
    ensures Wf(s')
    ensures s'.registry == Registry.Release(s.registry, id).registry
    ensures Registry.Release(s.registry, id).count == 0 ==> s'.pools == s.pools
  {
    var rel := Registry.Release(s.registry, id);
    RemovedIdsArePooled(s, id);
    if rel.count > 0 then Resources(rel.registry, UnassignAll(s.pools, rel.removedIds))
    else Resources(rel.registry, s.pools)
  }

  /** The per-frame update: only the mesh and texture pools are polled. */
  function Update(s: Resources, meshDone: map<Id, State>, textureDone: map<Id, State>): (s': Resources)
    requires Wf(s)
    ensures Wf(s') && s'.registry == s.registry
    ensures forall t :: Pooled(t) && !Async(t) ==> s'.pools.Get(t) == s.pools.Get(t)
    ensures forall x :: QueryState(s, x) != Ok(Pending) ==> QueryState(s', x) == QueryState(s, x)
  {
    var pools := s.pools.Set(Mesh, Pools.Update(s.pools.Get(Mesh), meshDone))
                        .Set(Texture, Pools.Update(s.pools.Get(Texture), textureDone));
    assert forall t, x :: Pooled(t) ==> (Pools.Issued(pools.Get(t), x) <==> Pools.Issued(s.pools.Get(t), x));
    Resources(s.registry, pools)
  }

  // ---------------------------------------------------------------------
  // Properties of the steps

  /** Every id a release reports has a pool: the registry only holds ids the
      pools issued, so a discard never reaches the ConstantBlock or unknown
      tag case. */
  lemma RemovedIdsArePooled(s: Resources, id: Id)
    requires Wf(s)
    ensures AllPooled(Registry.Release(s.registry, id).removedIds)
  {
  }

  /** Unassigning a list: every listed id reads `Initial` afterwards and
      every other id keeps its state. */
  lemma {:induction false} UnassignAllQuery(pools: PoolSet, ids: seq<Id>, x: Id)
    requires PoolsWf(pools) && AllPooled(ids) && Pooled(x.Type())
    ensures var after := UnassignAll(pools, ids);
      Pools.QueryState(after.Get(x.Type()), x) ==
        if x in ids then Initial else Pools.QueryState(pools.Get(x.Type()), x)
  {
    if ids != [] {
      var init := ids[..|ids| - 1];
      assert AllPooled(init);
      UnassignAllQuery(pools, init, x);
      assert x in ids <==> x in init || x == ids[|ids| - 1];
    }
  }

  /** The pool of a type that no listed id has is left as it was. */
  lemma {:induction false} UnassignAllUntouched(pools: PoolSet, ids: seq<Id>, t: ResourceType)
    requires PoolsWf(pools) && AllPooled(ids) && Pooled(t)
    requires forall x :: x in ids ==> x.Type() != t
    ensures UnassignAll(pools, ids).Get(t) == pools.Get(t)
  {
    if ids != [] {
      var init := ids[..|ids| - 1];
      assert AllPooled(init);
      assert forall x :: x in init ==> x in ids;
      assert ids[|ids| - 1] in ids;
      UnassignAllUntouched(pools, init, t);
    }
  }

  /** Destruction follows list order: unassigning `a` then `b` is
      unassigning `a + b`. */
  lemma {:induction false} UnassignAllAppend(pools: PoolSet, a: seq<Id>, b: seq<Id>)
    requires PoolsWf(pools) && AllPooled(a) && AllPooled(b)
    ensures AllPooled(a + b)
    ensures UnassignAll(pools, a + b) == UnassignAll(UnassignAll(pools, a), b)
    decreases |b|
  {
    assert forall i :: 0 <= i < |a + b| ==> (a + b)[i] == if i < |a| then a[i] else b[i - |a|];
    if b == [] {
      assert a + b == a;
    } else {
      var b' := b[..|b| - 1];
      assert (a + b)[..|a + b| - 1] == a + b';
      assert AllPooled(b');
      UnassignAllAppend(pools, a, b');
    }
  }

  /** After a discard every removed id reads `Initial` in its pool, no
      longer is registered, and every other id keeps its state. */
  lemma {:induction false} DiscardEffect(s: Resources, id: Id, x: Id)
    requires Wf(s)
    ensures var rel := Registry.Release(s.registry, id);
      var s' := DiscardResource(s, id);
      (x in rel.removedIds ==> QueryState(s', x) == Ok(Initial) && x !in s'.registry.entries) &&
      (x !in rel.removedIds ==> QueryState(s', x) == QueryState(s, x))
  {
    var rel := Registry.Release(s.registry, id);
    RemovedIdsArePooled(s, id);
    if Pooled(x.Type()) && rel.count > 0 {
      UnassignAllQuery(s.pools, rel.removedIds, x);
    }
  }

  /** Dedup: a second creation with the same shared locator and descriptor
      type returns the id of the first and changes nothing, so the pool
      allocates only once. */
  lemma CreateTwiceSameId(s: Resources, a: ResourceSetup, b: ResourceSetup, sa: State, sb: State)
    requires Wf(s) && Assignable(a.Type(), sa) && Assignable(b.Type(), sb)
    requires a.loc == b.loc && a.loc.IsShared() && a.Type() == b.Type()
    requires Create(s, a, sa).0.Ok?
    ensures var (r1, s1) := Create(s, a, sa);
      Create(s1, b, sb) == (r1, s1)
  {
  }

  /** A non-shared locator never hits: every creation with it issues an id
      no pool has issued before. */
  lemma NonSharedAlwaysNew(s: Resources, setup: ResourceSetup, built: State)
    requires Wf(s) && Assignable(setup.Type(), built) && !setup.loc.IsShared()
    ensures var (r, s') := Create(s, setup, built);
      r.Ok? && r.value !in s.registry.entries &&
      forall t :: Pooled(t) ==> !Pools.Issued(s.pools.Get(t), r.value)
  {
  }

  /** The hit path takes no extra reference: a resource created twice under
      one shared locator is destroyed by a single discard, and its locator
      is free again. */
  lemma OneDiscardAfterTwoCreates(s: Resources, setup: ResourceSetup, sa: State, sb: State)
    requires Wf(s) && Assignable(setup.Type(), sa) && Assignable(setup.Type(), sb)
    requires setup.loc.IsShared() && !Registry.Lookup(s.registry, setup.loc).IsValid()
    ensures var (r1, s1) := Create(s, setup, sa);
      var (r2, s2) := Create(s1, setup, sb);
      var s3 := DiscardResource(s2, r1.value);
      r1.Ok? && r2 == r1 &&
      QueryState(s3, r1.value) == Ok(Initial) &&
      !Registry.Lookup(s3.registry, setup.loc).IsValid()
  {
    var (r1, s1) := Create(s, setup, sa);
    var id := r1.value;
    assert s1.registry.entries[id].useCount == 1;
    DiscardEffect(s1, id, id);
    Registry.ReleasedLocatorNotFound(s1.registry, id);
  }

  /** A freshly created resource reads back the state its factory left it
      in, and a discard of it returns it to `Initial`. */
  lemma CreateDiscardRoundTrip(s: Resources, setup: ResourceSetup, built: State)
    requires Wf(s) && Assignable(setup.Type(), built)
    requires !Registry.Lookup(s.registry, setup.loc).IsValid()
    ensures var (r, s1) := Create(s, setup, built);
      r.Ok? && QueryState(s1, r.value) == Ok(built) &&
      QueryState(DiscardResource(s1, r.value), r.value) == Ok(Initial)
  {
    var (r, s1) := Create(s, setup, built);
    assert s1.registry.entries[r.value].useCount == 1;
    DiscardEffect(s1, r.value, r.value);
  }

  /** A program bundle holds a use of each shader it lists: discarding such
      a shader once its bundle exists destroys nothing, and the shader stays
      registered. */
  lemma BundleKeepsShaderAlive(s: Resources, setup: ResourceSetup, built: State, shader: Id)
    requires Wf(s) && Assignable(setup.Type(), built) && setup.ProgramBundleSetup?
    requires !Registry.Lookup(s.registry, setup.loc).IsValid()
    requires shader in s.registry.entries
    requires exists i :: 0 <= i < |setup.programs| &&
                         (setup.programs[i].vertexShader == shader || setup.programs[i].fragmentShader == shader)
    ensures var (_, s1) := Create(s, setup, built);
      var s2 := DiscardResource(s1, shader);
      Registry.Release(s1.registry, shader).count == 0 &&
      s2.pools == s1.pools && shader in s2.registry.entries
  {
    var (_, s1) := Create(s, setup, built);
    ShaderDepsMembers(setup.programs, shader);
    assert multiset(SetupDeps(setup))[shader] >= 1;
    assert s1.registry.entries[shader].useCount >= 2;
  }
}
