/** The abstract per-type resource pool the manager routes to. Only what the
    manager relies on is modelled: ids are handed out with a stamp that is
    never reused, and each handed-out id has a lifecycle state. Slot arrays,
    capacity and the factories behind the pool are not part of this model. */
module Pools {
  import opened Handles

  /** `states` holds every id that is not in the `Initial` state; an id
      absent from it reads as `Initial`. */
  datatype Pool = Pool(tag: ResourceType, nextStamp: nat, states: map<Id, State>)

  /** The pool has handed out `id` at some point (it may since have been
      unassigned). */
  predicate Issued(p: Pool, id: Id)
  {
    id.ResId? && id.typ == p.tag && id.uniqueStamp < p.nextStamp
  }

  ghost predicate Wf(p: Pool)
  {
    forall id :: id in p.states ==> Issued(p, id)
  }

  function Empty(t: ResourceType): (p: Pool)
    ensures Wf(p) && p.tag == t
    ensures forall id :: !Issued(p, id) && QueryState(p, id) == Initial
  {
    Pool(t, 0, map[])
  }

  /** The lifecycle state of `id`; an id the pool never issued reads as
      `Initial`. */
  function QueryState(p: Pool, id: Id): (s: State)
    ensures Wf(p) && !Issued(p, id) ==> s == Initial
  {
    if id in p.states then p.states[id] else Initial
  }

  /** Hands out an id of the pool's type that the pool never issued before;
      the new resource is in the `Setup` state. */
  function AllocId(p: Pool): (res: (Id, Pool))
    requires Wf(p)
    ensures var (id, p') := res;
      id.IsValid() && id.Type() == p.tag &&
      !Issued(p, id) && id !in p.states && Issued(p', id) &&
      QueryState(p', id) == Setup &&
      p'.tag == p.tag && Wf(p') &&
      (forall x :: Issued(p, x) ==> Issued(p', x)) &&
      (forall x :: x != id ==> QueryState(p', x) == QueryState(p, x))
  {
    var id := ResId(p.tag, p.nextStamp);
    (id, Pool(p.tag, p.nextStamp + 1, p.states[id := Setup]))
  }

  /** Constructs the resource of an allocated id; the factory decides the
      state it ends in, which is passed in as `s`. */
  function Assign(p: Pool, id: Id, s: State): (p': Pool)
    requires Wf(p) && Issued(p, id) && Assignable(p.tag, s)
    ensures Wf(p') && p'.tag == p.tag
    ensures QueryState(p', id) == s
    ensures forall x :: Issued(p', x) <==> Issued(p, x)
    ensures forall x :: x != id ==> QueryState(p', x) == QueryState(p, x)
  {
    p.(states := p.states[id := s])
  }

  /** Destroys the resource of `id`: it reads as `Initial` again, and its
      stamp stays used, so the id is never handed out again. */
  function Unassign(p: Pool, id: Id): (p': Pool)
    requires Wf(p)
    ensures Wf(p') && p'.tag == p.tag
    ensures QueryState(p', id) == Initial
    ensures forall x :: Issued(p', x) <==> Issued(p, x)
    ensures forall x :: x != id ==> QueryState(p', x) == QueryState(p, x)
  {
    p.(states := p.states - {id})
  }

  predicate Completed(s: State)
  {
    s == Valid || s == Failed
  }

  /** The per-frame poll: every pending resource whose load has completed
      (`done` maps it to `Valid` or `Failed`) takes that state; nothing else
      changes. */
  function Update(p: Pool, done: map<Id, State>): (p': Pool)
    requires Wf(p)
    ensures Wf(p') && p'.tag == p.tag
    ensures forall x :: Issued(p', x) <==> Issued(p, x)
    ensures forall x :: QueryState(p, x) != Pending ==> QueryState(p', x) == QueryState(p, x)
    ensures forall x :: QueryState(p, x) == Pending ==>
      QueryState(p', x) == Pending || (x in done && QueryState(p', x) == done[x] && Completed(done[x]))
  {
    p.(states := map x | x in p.states ::
         if p.states[x] == Pending && x in done && Completed(done[x]) then done[x] else p.states[x])
  }

  /** An id kept across an unassign and a new allocation never equals the id
      of the new allocation, even if the pool reuses storage. */
  lemma StaleIdNeverReissued(p: Pool, old_id: Id)
    requires Wf(p) && Issued(p, old_id)
    ensures var (fresh_id, p') := AllocId(Unassign(p, old_id));
      fresh_id != old_id && QueryState(Unassign(p, old_id), old_id) == Initial &&
      QueryState(p', old_id) == Initial
  {
  }
}
