/**
 * The entity manager's documented behaviour, each on a fresh manager:
 * ids are handed out from 1 and reused, components can be read back,
 * removed and are destroyed with their entity.
 */
module EntityScenarios {
  import opened Wrappers
  import opened ComponentArrays
  import opened TypeCodes
  import opened Entities

  /** A created entity is valid and counted; once destroyed it is neither. */
  lemma CreateThenDestroy()
    ensures var s := AfterCreate(IdState(0, []));
      NewId(IdState(0, [])) == 1 && IsLive(s, 1) && Count(s) == 1 &&
      !IsLive(AfterDestroy(s, 1), 1) && Count(AfterDestroy(s, 1)) == 0
  {
  }

  /**
   * The id of a destroyed entity is the next one handed out: create 1
   * and 2, destroy 1, and the next entity is 1 again.
   */
  lemma ReuseId()
    ensures var s := AfterCreate(AfterCreate(IdState(0, [])));
      NewId(AfterDestroy(s, 1)) == 1 && IsLive(AfterCreate(AfterDestroy(s, 1)), 1)
  {
  }

  /** `create_entity<T1, T2>()` gives the entity a component of both types. */
  method AutoAddComponents<C(0)>(registry: ComponentRegistry, types: TypeCodeCounter, zero: C,
                                 t1: nat, t2: nat, v1: C, v2: C, l1: Layout, l2: Layout)
      returns (got1: Option<C>, got2: Option<C>)
    requires types.Valid() && t1 != t2
    modifies types, registry
    ensures got1 == Some(v1) && got2 == Some(v2)
  {
    var m := new EntityManager(registry, types, zero);
    var e := m.CreateEntityWith([t1, t2], [v1, v2], [l1, l2]);
    assert LastBefore([t1, t2], 0, 2) && LastBefore([t1, t2], 1, 2);
    got1 := m.ComponentSince(m.State(), e, t1);
    got2 := m.ComponentSince(m.State(), e, t2);
  }

  /**
   * Removing a component destroys it once and leaves the entity without
   * one of that type; removing it again changes nothing and destroys
   * nothing.
   */
  lemma RemoveComponentOnce<C>(a: ComponentState<C>, b: ComponentState<C>, c: ComponentState<C>, g: seq<seq<C>>,
                               ty: nat, eid: nat, value: C)
    requires Added(a, b, ty, eid, value) && Removed(b, c, ty, eid) && DistinctCodes(c.codes)
    requires |g| == |b.table|
    ensures ComponentOf(b, ty, eid) == Some(value) && ComponentOf(c, ty, eid) == None
    ensures c.codes[ty] < |g| && DroppedAt(g, b.table, c.codes[ty], eid)[c.codes[ty]] == g[c.codes[ty]] + [value]
    ensures ClearedAt(c.table, c.codes[ty], eid) == c.table
    ensures DroppedAt(DroppedAt(g, b.table, c.codes[ty], eid), c.table, c.codes[ty], eid) == DroppedAt(g, b.table, c.codes[ty], eid)
  {
    assert b.codes == c.codes;
    AddedMeaning(a, b, ty, eid, value);
    RemovedMeaning(b, c, ty, eid);
    ClearedAtAbsent(c, DroppedAt(g, b.table, c.codes[ty], eid), ty, eid);
  }

  /**
   * Destroying an entity destroys its component of every type and
   * leaves it with none.
   */
  lemma DestroyDropsComponents<C>(a: ComponentState<C>, b: ComponentState<C>, g: seq<seq<C>>, ty: nat, eid: nat, value: C)
    requires Added(a, b, ty, eid, value) && DistinctCodes(b.codes) && |g| == |b.table|
    ensures b.codes[ty] < |g| && DroppedTable(b.table, g, eid)[b.codes[ty]] == g[b.codes[ty]] + [value]
    ensures forall t | t in b.codes :: ComponentOf(ComponentState(ClearedTable(b.table, eid), b.codes), t, eid) == None
  {
  }
}
