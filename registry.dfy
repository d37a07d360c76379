/** The abstract resource registry behind the manager: shared locators map to
    the id registered for them, and every registered id carries its locator,
    its dependency ids and its use count. A new entry starts with one use, and
    every registered id it lists as a dependency gains one use. A release
    drops one use; at zero the entry is removed and the uses it held on its
    dependencies are dropped in turn. The registry's own source is not part
    of this model: the bodies below are the simplest that keep this
    contract. */
module Registry {
  import opened Handles

  datatype Entry = Entry(loc: Locator, deps: seq<Id>, useCount: nat)

  datatype Registry = Registry(byLocator: map<Locator, Id>, entries: map<Id, Entry>)

  /** Result of releasing an id: how many ids were removed, which ones (in the
      order the manager must destroy them), and the registry afterwards. */
  datatype Released = Released(count: nat, removedIds: seq<Id>, registry: Registry)

  /** Only shared locators are indexed, each to a registered id whose entry
      names that locator back; every registered id is valid and in use. */
  ghost predicate Wf(r: Registry)
  {
    (forall loc :: loc in r.byLocator ==>
      loc.IsShared() && r.byLocator[loc] in r.entries && r.entries[r.byLocator[loc]].loc == loc) &&
    (forall id :: id in r.entries ==>
       id.IsValid() && r.entries[id].useCount >= 1 &&
       (r.entries[id].loc.IsShared() ==> r.entries[id].loc in r.byLocator && r.byLocator[r.entries[id].loc] == id))
  }

  /** Some registered id is stored under the shared locator `loc`. */
  ghost predicate Registered(r: Registry, loc: Locator)
  {
    loc.IsShared() && exists id :: id in r.entries && r.entries[id].loc == loc
  }

  function Empty(): (r: Registry)
    ensures Wf(r) && r.entries == map[]
    ensures forall loc :: !Registered(r, loc)
  {
    Registry(map[], map[])
  }

  /** The id registered under `loc`, or the invalid id when there is none
      (always for a non-shared locator). */
  function Lookup(r: Registry, loc: Locator): (id: Id)
    requires Wf(r)
    ensures id.IsValid() <==> Registered(r, loc)
    ensures id.IsValid() ==> id in r.entries && r.entries[id].loc == loc
  {
    if loc in r.byLocator then r.byLocator[loc] else InvalidId
  }

  /** One more use for every registered id of `deps`, once per occurrence. */
  function AddUses(entries: map<Id, Entry>, deps: seq<Id>): (e: map<Id, Entry>)
    ensures e.Keys == entries.Keys
    ensures forall x :: x in entries ==>
      e[x] == entries[x].(useCount := entries[x].useCount + multiset(deps)[x])
  {
    if deps == [] then entries
    else
      var e := AddUses(entries, deps[1..]);
      assert deps == [deps[0]] + deps[1..];
      var d := deps[0];
      if d in e then e[d := e[d].(useCount := e[d].useCount + 1)] else e
  }

  /** Registers a new id under `loc` with its dependencies: the new entry has
      one use, and each registered dependency gains one use per mention. */
  function Add(r: Registry, loc: Locator, id: Id, deps: seq<Id>): (r': Registry)
    requires Wf(r) && id.IsValid() && id !in r.entries && !Registered(r, loc)
    ensures Wf(r')
    ensures r'.entries.Keys == r.entries.Keys + {id}
    ensures r'.entries[id] == Entry(loc, deps, 1)
    ensures forall x :: x in r.entries ==>
      r'.entries[x] == r.entries[x].(useCount := r.entries[x].useCount + multiset(deps)[x])
    ensures loc.IsShared() ==> Lookup(r', loc) == id
    ensures forall other :: other != loc ==> Lookup(r', other) == Lookup(r, other)
  {
    var r' := Registry(if loc.IsShared() then r.byLocator[loc := id] else r.byLocator,
                       AddUses(r.entries, deps)[id := Entry(loc, deps, 1)]);
    AddKeepsWf(r, loc, id, deps, r');
    r'
  }

  /** The registry `Add` builds is well formed. */
  lemma AddKeepsWf(r: Registry, loc: Locator, id: Id, deps: seq<Id>, r': Registry)
    requires Wf(r) && id.IsValid() && id !in r.entries && !Registered(r, loc)
    requires r' == Registry(if loc.IsShared() then r.byLocator[loc := id] else r.byLocator,
                            AddUses(r.entries, deps)[id := Entry(loc, deps, 1)])
    ensures Wf(r')
  {
  }

  /** What every release promises: the count is the number of removed ids;
      the removed ids were registered and no longer are; every other entry
      stays, with its locator and dependencies and at most its former use
      count. */
  ghost predicate Shrinks(r: Registry, rel: Released)
  {
    Wf(rel.registry) &&
    rel.count == |rel.removedIds| &&
    (forall x :: x in rel.removedIds ==> x in r.entries) &&
    (forall x :: x in rel.registry.entries <==> x in r.entries && x !in rel.removedIds) &&
    (forall x :: x in rel.registry.entries ==>
       rel.registry.entries[x].loc == r.entries[x].loc &&
       rel.registry.entries[x].deps == r.entries[x].deps &&
       rel.registry.entries[x].useCount <= r.entries[x].useCount)
  }

  /** Drops one use of `id`. The last use removes the entry (it heads the
      removed list) and then drops the uses it held on its dependencies;
      any other use leaves only a smaller use count behind. An id the
      registry does not hold changes nothing. */
  function Release(r: Registry, id: Id): (rel: Released)
    requires Wf(r)
    ensures Shrinks(r, rel)
    ensures id in r.entries && r.entries[id].useCount == 1 ==>
      rel.count > 0 && rel.removedIds[0] == id
    ensures id in r.entries && r.entries[id].useCount > 1 ==>
      rel.count == 0 &&
      rel.registry == r.(entries := r.entries[id := r.entries[id].(useCount := r.entries[id].useCount - 1)])
    ensures id !in r.entries ==> rel.count == 0 && rel.registry == r
    decreases r.entries.Keys, 0
  {
    if id !in r.entries then Released(0, [], r)
    else
      var e := r.entries[id];
      if e.useCount > 1 then
        Released(0, [], r.(entries := r.entries[id := e.(useCount := e.useCount - 1)]))
      else
        var rest := Registry(if e.loc.IsShared() then r.byLocator - {e.loc} else r.byLocator,
                             r.entries - {id});
        var cascade := ReleaseAll(rest, e.deps);
        Released(1 + cascade.count, [id] + cascade.removedIds, cascade.registry)
  }

  /** Drops one use of each id of the list, in list order. */
  function ReleaseAll(r: Registry, ids: seq<Id>): (rel: Released)
    requires Wf(r)
    ensures Shrinks(r, rel)
    decreases r.entries.Keys, |ids|
  {
    if ids == [] then Released(0, [], r)
    else
      var first := Release(r, ids[0]);
      var rest := ReleaseAll(first.registry, ids[1..]);
      Released(first.count + rest.count, first.removedIds + rest.removedIds, rest.registry)
  }

  /** After a release, the shared locator of the released id no longer finds
      anything when that was its last use, and still finds the id otherwise. */
  lemma ReleasedLocatorNotFound(r: Registry, id: Id)
    requires Wf(r) && id in r.entries && r.entries[id].loc.IsShared()
    ensures var loc := r.entries[id].loc;
      Lookup(r, loc) == id &&
      (r.entries[id].useCount == 1 ==> !Lookup(Release(r, id).registry, loc).IsValid()) &&
      (r.entries[id].useCount > 1 ==> Lookup(Release(r, id).registry, loc) == id)
  {
  }
}
