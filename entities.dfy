/**
 * EntityManager: entity ids handed out from a counter and a free list,
 * and one ComponentArray per component type code, indexed by entity id.
 * Component values of every type are values of one type C here; the
 * array a value sits in is what gives it its type.
 */
module Entities {
  import opened Wrappers
  import opened StableVectors
  import opened ComponentArrays
  import opened TypeCodes

  /** `EntityId` is an `unsigned int`. */
  const U32_LIMIT: nat := 0x1_0000_0000
  type EntityId = x: nat | x < U32_LIMIT

  /** `Entity`: the manager it belongs to (possibly null) and its id. */
  datatype Entity<C(0)> = Entity(owner: EntityManager?<C>, eid: EntityId)

  /** `nil_entity()`: no owner, id 0. */
  function NilEntity<C(0)>(): Entity<C>
  {
    Entity(null, 0)
  }

  /** `operator==` on entities: same owner and same id. */
  predicate SameEntity<C(0)>(e1: Entity<C>, e2: Entity<C>)
  {
    e1.owner == e2.owner && e1.eid == e2.eid
  }

  /** `operator!=`. */
  predicate DifferentEntity<C(0)>(e1: Entity<C>, e2: Entity<C>)
  {
    !SameEntity(e1, e2)
  }

  /** Entity equality is exactly equality of the (owner, id) pair, and `!=` its negation. */
  lemma SameEntityIsEquality<C(0)>(e1: Entity<C>, e2: Entity<C>)
    ensures SameEntity(e1, e2) <==> e1 == e2
    ensures DifferentEntity(e1, e2) <==> e1 != e2
  {
  }

  /** The slots after `remove_dynamic(index, …)`: an occupied slot at index is cleared. */
  function Cleared<C>(slots: seq<Slot<C>>, index: nat): seq<Slot<C>>
  {
    if index < |slots| && slots[index].flag then slots[index := Slot(false, slots[index].value)] else slots
  }

  /** The components `remove_dynamic(index, …)` destroys: the one at index, if occupied. */
  function Dropped<C>(slots: seq<Slot<C>>, index: nat): seq<C>
  {
    if index < |slots| && slots[index].flag then [slots[index].value] else []
  }

  /** The ids from 1 to n. */
  ghost function IdRange(n: nat): set<nat>
  {
    if n == 0 then {} else IdRange(n - 1) + {n}
  }

  lemma {:induction false} InIdRange(n: nat, i: nat)
    ensures i in IdRange(n) <==> 1 <= i <= n
  {
    if n > 0 {
      InIdRange(n - 1, i);
    }
  }

  lemma {:induction false} IdRangeSize(n: nat)
    ensures |IdRange(n)| == n
  {
    if n > 0 {
      IdRangeSize(n - 1);
      InIdRange(n - 1, n);
    }
  }

  /** The ids on a list. */
  ghost function IdsOn(s: seq<EntityId>): set<nat>
  {
    set x | x in s
  }

  /** A list without repetitions has as many members as entries. */
  lemma {:induction false} DistinctSize(s: seq<EntityId>)
    requires forall i, j | 0 <= i < j < |s| :: s[i] != s[j]
    ensures |IdsOn(s)| == |s|
  {
    if s != [] {
      var init := s[..|s| - 1];
      DistinctSize(init);
      assert s == init + [s[|s| - 1]];
      assert IdsOn(s) == IdsOn(init) + {s[|s| - 1]};
      assert s[|s| - 1] !in init;
    }
  }

  /**
   * A list of distinct ids between 1 and n has at most n entries, and
   * the ids in 1 .. n not on it number n minus its length.
   */
  lemma FreeIdsCount(s: seq<EntityId>, n: nat)
    requires forall i | 0 <= i < |s| :: 1 <= s[i] <= n
    requires forall i, j | 0 <= i < j < |s| :: s[i] != s[j]
    ensures |s| <= n && |IdRange(n) - IdsOn(s)| == n - |s|
  {
    DistinctSize(s);
    IdRangeSize(n);
    var all, used := IdRange(n), IdsOn(s);
    forall x | x in used
      ensures x in all
    {
      InIdRange(n, x);
    }
    assert all == (all - used) + used;
    assert (all - used) !! used;
    assert |all| == |all - used| + |used|;
  }

  /** The id allocator's state: `_max_eid` and `_free_list`, its back at the end. */
  datatype IdState = IdState(maxEid: EntityId, freeList: seq<EntityId>)

  /** The free list holds distinct ids between 1 and `_max_eid`. */
  ghost predicate WellFormed(s: IdState)
  {
    (forall i | 0 <= i < |s.freeList| :: 1 <= s.freeList[i] <= s.maxEid) &&
    (forall i, j | 0 <= i < j < |s.freeList| :: s.freeList[i] != s.freeList[j])
  }

  /** `is_valid(e)`: the id is at most `_max_eid` and not on the free list; the owner is not looked at. */
  predicate IsLive(s: IdState, eid: EntityId)
  {
    eid <= s.maxEid && eid !in s.freeList
  }

  /** `entity_count()`: `_max_eid - _free_list.size()`, computed in `size_t`. */
  function Count(s: IdState): nat
  {
    (s.maxEid - |s.freeList|) % SIZE_T_LIMIT
  }

  /** The ids from 1 up that `is_valid` accepts. */
  ghost function LiveIds(s: IdState): set<nat>
  {
    IdRange(s.maxEid) - IdsOn(s.freeList)
  }

  /** An id from 1 up is in LiveIds exactly when `is_valid` accepts it. */
  lemma LiveIdsMeaning(s: IdState, eid: EntityId)
    requires eid >= 1
    ensures eid in LiveIds(s) <==> IsLive(s, eid)
  {
    InIdRange(s.maxEid, eid);
  }

  /**
   * With a well-formed free list, `entity_count()` does not wrap and is
   * the number of ids from 1 to `_max_eid` that are valid.
   */
  lemma CountIsLiveIds(s: IdState)
    requires WellFormed(s)
    ensures Count(s) == s.maxEid - |s.freeList| == |LiveIds(s)|
  {
    FreeIdsCount(s.freeList, s.maxEid);
  }

  lemma CountMeaning(s: IdState)
    ensures WellFormed(s) ==> Count(s) == |LiveIds(s)|
  {
    if WellFormed(s) {
      CountIsLiveIds(s);
    }
  }

  /**
   * The id `create_entity()` hands out: with an empty free list the
   * counter's incremented value (wrapping at 2^32), otherwise the back of
   * the free list.
   */
  function NewId(s: IdState): EntityId
  {
    if |s.freeList| == 0 then (s.maxEid + 1) % U32_LIMIT else s.freeList[|s.freeList| - 1]
  }

  /** The allocator after `create_entity()`. */
  function AfterCreate(s: IdState): IdState
  {
    if |s.freeList| == 0 then IdState((s.maxEid + 1) % U32_LIMIT, [])
    else IdState(s.maxEid, s.freeList[..|s.freeList| - 1])
  }

  /**
   * The allocator after `destroy_entity(e)`: the counter is decremented
   * (wrapping below 0) when the id is `_max_eid`; otherwise the id is
   * pushed on the free list.
   */
  function AfterDestroy(s: IdState, eid: EntityId): IdState
  {
    if eid == s.maxEid then IdState((s.maxEid + U32_LIMIT - 1) % U32_LIMIT, s.freeList)
    else IdState(s.maxEid, s.freeList + [eid])
  }

  /** Creating keeps the free list well formed and hands out an id that is then valid. */
  lemma CreateKeepsWellFormed(s: IdState)
    requires WellFormed(s)
    ensures WellFormed(AfterCreate(s)) && IsLive(AfterCreate(s), NewId(s))
  {
    if |s.freeList| != 0 {
      var t := AfterCreate(s);
      var last := s.freeList[|s.freeList| - 1];
      assert s.freeList == t.freeList + [last];
    }
  }

  /**
   * Unless the counter wraps, the id handed out is at least 1, was not
   * valid before, and is the only id that becomes valid.
   */
  lemma CreateAddsOneId(s: IdState)
    requires WellFormed(s)
    requires |s.freeList| != 0 || s.maxEid + 1 < U32_LIMIT
    ensures NewId(s) >= 1 && NewId(s) !in LiveIds(s)
    ensures LiveIds(AfterCreate(s)) == LiveIds(s) + {NewId(s)}
  {
    var t := AfterCreate(s);
    var m, f := s.maxEid, s.freeList;
    if |f| != 0 {
      var last := f[|f| - 1];
      var init := f[..|f| - 1];
      assert f == init + [last];
      assert IdsOn(f) == IdsOn(init) + {last};
      InIdRange(m, last);
    } else {
      assert IdRange(t.maxEid) == IdRange(m) + {m + 1};
      InIdRange(m, m + 1);
    }
  }

  /** Unless the counter wraps, creating adds one to `entity_count()`. */
  lemma CreateCounts(s: IdState)
    requires WellFormed(s)
    requires |s.freeList| != 0 || s.maxEid + 1 < U32_LIMIT
    ensures Count(AfterCreate(s)) == Count(s) + 1
  {
    CreateKeepsWellFormed(s);
    CreateAddsOneId(s);
    CountIsLiveIds(s);
    CountIsLiveIds(AfterCreate(s));
  }

  /** Destroying a valid id other than 0 keeps the free list well formed and makes the id invalid. */
  lemma DestroyKeepsWellFormed(s: IdState, eid: EntityId)
    requires WellFormed(s) && IsLive(s, eid) && eid >= 1
    ensures WellFormed(AfterDestroy(s, eid)) && !IsLive(AfterDestroy(s, eid), eid)
  {
  }

  /** Destroying a valid id other than 0 takes exactly that id out of the valid ones. */
  lemma DestroyRemovesOneId(s: IdState, eid: EntityId)
    requires WellFormed(s) && IsLive(s, eid) && eid >= 1
    ensures eid in LiveIds(s) && LiveIds(AfterDestroy(s, eid)) == LiveIds(s) - {eid}
  {
    var t := AfterDestroy(s, eid);
    LiveIdsMeaning(s, eid);
    if eid == s.maxEid {
      InIdRange(eid - 1, eid);
    } else {
      assert IdsOn(t.freeList) == IdsOn(s.freeList) + {eid};
    }
  }

  /** Destroying a valid id other than 0 takes one off `entity_count()`. */
  lemma DestroyCounts(s: IdState, eid: EntityId)
    requires WellFormed(s) && IsLive(s, eid) && eid >= 1
    ensures Count(AfterDestroy(s, eid)) == Count(s) - 1
  {
    DestroyKeepsWellFormed(s, eid);
    DestroyRemovesOneId(s, eid);
    CountIsLiveIds(s);
    CountIsLiveIds(AfterDestroy(s, eid));
  }

  /** Every array after `remove_dynamic(eid, code)`. */
  function ClearedTable<C>(table: seq<seq<Slot<C>>>, eid: nat): (r: seq<seq<Slot<C>>>)
    ensures |r| == |table| && forall k | 0 <= k < |r| :: r[k] == Cleared(table[k], eid)
  {
    seq(|table|, k requires 0 <= k < |table| => Cleared(table[k], eid))
  }

  /** Every array's destroyed list after `remove_dynamic(eid, code)`. */
  function DroppedTable<C>(table: seq<seq<Slot<C>>>, graveyard: seq<seq<C>>, eid: nat): (r: seq<seq<C>>)
    requires |graveyard| == |table|
    ensures |r| == |table| && forall k | 0 <= k < |r| :: r[k] == graveyard[k] + Dropped(table[k], eid)
  {
    seq(|table|, k requires 0 <= k < |table| => graveyard[k] + Dropped(table[k], eid))
  }

  /** Every array's slots by type code, and the type codes handed out. */
  datatype ComponentState<C> = ComponentState(table: seq<seq<Slot<C>>>, codes: map<nat, nat>)

  /** n arrays that have never held anything. */
  function Blank<T>(n: nat): (r: seq<seq<T>>)
    ensures |r| == n && forall k | 0 <= k < n :: r[k] == []
  {
    seq(n, _ => [])
  }

  /** `size<T>()` of the array with the given code, 0 when there is no such array yet. */
  function SizeOf<C>(table: seq<seq<Slot<C>>>, code: nat): nat
  {
    if code < |table| then |table[code]| else 0
  }

  /**
   * `component<T>(e)` once T's code is known: null when the code is at or
   * beyond the number of arrays or the id at or beyond the array's size,
   * otherwise `at(eid)`, which is null unless the slot's flag is set.
   */
  function Lookup<C>(table: seq<seq<Slot<C>>>, code: nat, eid: nat): Option<C>
  {
    if code >= |table| || eid >= |table[code]| then None
    else if table[code][eid].flag then Some(table[code][eid].value)
    else None
  }

  /** The component of type ty an entity has; a type without a code has no array. */
  function ComponentOf<C>(cs: ComponentState<C>, ty: nat, eid: nat): Option<C>
  {
    if ty in cs.codes then Lookup(cs.table, cs.codes[ty], eid) else None
  }

  /**
   * b is a with more types registered: the arrays are the same, the old
   * codes are kept, and every new code is beyond the arrays.
   */
  ghost predicate Extends<C>(a: ComponentState<C>, b: ComponentState<C>)
  {
    b.table == a.table &&
    (forall ty | ty in a.codes :: ty in b.codes && b.codes[ty] == a.codes[ty]) &&
    (forall ty | ty in b.codes && ty !in a.codes :: b.codes[ty] >= |a.table|)
  }

  /** Registering more types changes no entity's components. */
  lemma ExtendsKeepsComponents<C>(a: ComponentState<C>, b: ComponentState<C>, ty: nat, eid: nat)
    requires Extends(a, b)
    ensures ComponentOf(b, ty, eid) == ComponentOf(a, ty, eid)
  {
  }

  lemma ExtendsTransitive<C>(a: ComponentState<C>, b: ComponentState<C>, c: ComponentState<C>)
    requires Extends(a, b) && Extends(b, c)
    ensures Extends(a, c)
  {
  }

  /** The `component<T>(e)` results for a list of types, in order. */
  function Gather<C>(cs: ComponentState<C>, tys: seq<nat>, eid: nat): (r: seq<Option<C>>)
    ensures |r| == |tys| && forall j | 0 <= j < |tys| :: r[j] == ComponentOf(cs, tys[j], eid)
  {
    seq(|tys|, j requires 0 <= j < |tys| => ComponentOf(cs, tys[j], eid))
  }

  /** `all_not_null(ptrs...)`: checked front to back; there is at least one pointer. */
  function AllNotNull<C>(xs: seq<Option<C>>): (r: bool)
    requires |xs| > 0
    ensures r <==> forall j | 0 <= j < |xs| :: xs[j].Some?
  {
    if xs[0].None? then false
    else if |xs| == 1 then true
    else AllNotNull(xs[1..])
  }

  /** The components themselves, when none is null. */
  function Values<C>(xs: seq<Option<C>>): (r: seq<C>)
    requires forall j | 0 <= j < |xs| :: xs[j].Some?
    ensures |r| == |xs| && forall j | 0 <= j < |xs| :: xs[j] == Some(r[j])
  {
    seq(|xs|, j requires 0 <= j < |xs| => xs[j].value)
  }

  /** The call `for_components` makes for one id, if any: a valid entity with every listed component. */
  function Visit<C>(cs: ComponentState<C>, ids: IdState, tys: seq<nat>, eid: EntityId): seq<(EntityId, seq<C>)>
    requires |tys| > 0
  {
    if IsLive(ids, eid) && AllNotNull(Gather(cs, tys, eid)) then [(eid, Values(Gather(cs, tys, eid)))] else []
  }

  /** The calls `for_components` makes for the ids below n, in order. */
  function VisitsBelow<C>(cs: ComponentState<C>, ids: IdState, tys: seq<nat>, n: nat): seq<(EntityId, seq<C>)>
    requires |tys| > 0 && n <= U32_LIMIT
  {
    if n == 0 then [] else VisitsBelow(cs, ids, tys, n - 1) + Visit(cs, ids, tys, n - 1)
  }

  /**
   * Each call for the ids below n goes to a valid entity below n and
   * passes its components of the listed types, in order.
   */
  lemma {:induction false} VisitsBelowSound<C>(cs: ComponentState<C>, ids: IdState, tys: seq<nat>, n: nat)
    requires |tys| > 0 && n <= U32_LIMIT
    ensures forall k | 0 <= k < |VisitsBelow(cs, ids, tys, n)| ::
      var (i, values) := VisitsBelow(cs, ids, tys, n)[k];
      i < n && IsLive(ids, i) &&
      |values| == |tys| && forall j | 0 <= j < |tys| :: ComponentOf(cs, tys[j], i) == Some(values[j])
  {
    if n > 0 {
      VisitsBelowSound(cs, ids, tys, n - 1);
      assert VisitsBelow(cs, ids, tys, n) == VisitsBelow(cs, ids, tys, n - 1) + Visit(cs, ids, tys, n - 1);
    }
  }

  /** The calls for the ids below n go to strictly ascending ids. */
  lemma {:induction false} VisitsBelowAscending<C>(cs: ComponentState<C>, ids: IdState, tys: seq<nat>, n: nat)
    requires |tys| > 0 && n <= U32_LIMIT
    ensures forall k, l | 0 <= k < l < |VisitsBelow(cs, ids, tys, n)| ::
      VisitsBelow(cs, ids, tys, n)[k].0 < VisitsBelow(cs, ids, tys, n)[l].0
  {
    if n > 0 {
      VisitsBelowAscending(cs, ids, tys, n - 1);
      VisitsBelowSound(cs, ids, tys, n - 1);
      var prev := VisitsBelow(cs, ids, tys, n - 1);
      assert forall k | 0 <= k < |prev| :: prev[k].0 < n - 1;
      assert VisitsBelow(cs, ids, tys, n) == prev + Visit(cs, ids, tys, n - 1);
    }
  }

  /** Every valid id below n that has all the listed components gets a call. */
  lemma {:induction false} VisitsBelowComplete<C>(cs: ComponentState<C>, ids: IdState, tys: seq<nat>, n: nat)
    requires |tys| > 0 && n <= U32_LIMIT
    ensures forall i: EntityId | i < n && IsLive(ids, i) && AllOf(cs, tys, i) ::
      i in VisitedIds(VisitsBelow(cs, ids, tys, n))
  {
    if n > 0 {
      VisitsBelowComplete(cs, ids, tys, n - 1);
      var prev := VisitsBelow(cs, ids, tys, n - 1);
      var last := Visit(cs, ids, tys, n - 1);
      assert VisitsBelow(cs, ids, tys, n) == prev + last;
      assert VisitedIds(prev + last) == VisitedIds(prev) + VisitedIds(last);
      if IsLive(ids, n - 1) && AllOf(cs, tys, n - 1) {
        assert VisitedIds(last) == [n - 1];
      }
    }
  }

  /** The ids the calls go to, in order. */
  function VisitedIds<C>(r: seq<(EntityId, seq<C>)>): (ids: seq<EntityId>)
    ensures |ids| == |r| && forall k | 0 <= k < |r| :: ids[k] == r[k].0
  {
    seq(|r|, k requires 0 <= k < |r| => r[k].0)
  }

  /** Registering more types changes no `component<T>(e)` result. */
  lemma ExtendsKeepsGather<C>(a: ComponentState<C>, b: ComponentState<C>, tys: seq<nat>, eid: nat)
    requires Extends(a, b)
    ensures Gather(b, tys, eid) == Gather(a, tys, eid)
  {
    forall j | 0 <= j < |tys|
      ensures Gather(b, tys, eid)[j] == Gather(a, tys, eid)[j]
    {
      ExtendsKeepsComponents(a, b, tys[j], eid);
    }
  }

  /** `++i` on the `EntityId` (32-bit unsigned) counter of `for_components`. */
  function NextCounter(i: EntityId): (r: EntityId)
    ensures i < U32_LIMIT - 1 ==> r == i + 1
    ensures i == U32_LIMIT - 1 ==> r == 0
  {
    (i + 1) % U32_LIMIT
  }

  /** The counter after n rounds of that loop, from i. */
  function CounterAfter(i: EntityId, n: nat): EntityId
  {
    if n == 0 then i else NextCounter(CounterAfter(i, n - 1))
  }

  /** Below 2^32 rounds from 0, the counter has counted every round. */
  lemma {:induction false} CounterCounts(n: nat)
    requires n < U32_LIMIT
    ensures CounterAfter(0, n) == n
  {
    if n > 0 {
      CounterCounts(n - 1);
    }
  }

  /**
   * The loop of `for_components` as written, when `_max_eid` is the
   * largest id: the counter takes every value up to `_max_eid`, each
   * passing the condition `i <= _max_eid`, and one round later is back
   * at 0, so the same ids are visited again and the loop never ends.
   */
  lemma AsWrittenLoopNeverExits(maxEid: EntityId)
    requires maxEid == U32_LIMIT - 1
    ensures forall n: nat | n <= maxEid :: CounterAfter(0, n) == n
    ensures CounterAfter(0, maxEid + 1) == 0
  {
    forall n: nat | n <= maxEid
      ensures CounterAfter(0, n) == n
    {
      CounterCounts(n);
    }
    CounterCounts(maxEid);
  }

  /**
   * A manager can reach that state: on a fresh manager `_max_eid` is 0,
   * and destroying the entity with id 0 (which `is_valid` accepts)
   * decrements it, wrapping to the largest id.
   */
  lemma MaxEidCanWrap()
    ensures IsLive(IdState(0, []), 0)
    ensures AfterDestroy(IdState(0, []), 0).maxEid == U32_LIMIT - 1
  {
  }

  /** The entity has a component of every listed type. */
  ghost predicate AllOf<C>(cs: ComponentState<C>, tys: seq<nat>, eid: nat)
  {
    forall j | 0 <= j < |tys| :: ComponentOf(cs, tys[j], eid).Some?
  }

  /** The type codes are distinct. */
  ghost predicate DistinctCodes(codes: map<nat, nat>)
  {
    forall t, u | t in codes && u in codes && t != u :: codes[t] != codes[u]
  }

  /**
   * The codes of b are those of a after `register_type()` for ty: ty has
   * a code, kept if it had one, and otherwise a new one beyond a's
   * arrays; no other type's code changes.
   */
  ghost predicate Registers<C>(a: ComponentState<C>, b: ComponentState<C>, ty: nat)
  {
    ty in b.codes && b.codes == a.codes[ty := b.codes[ty]] &&
    (ty in a.codes ==> a.codes[ty] == b.codes[ty]) &&
    (ty !in a.codes ==> b.codes[ty] >= |a.table|)
  }

  /** Registering a type leaves every entity's components as they are. */
  lemma RegistersExtends<C>(a: ComponentState<C>, b: ComponentState<C>, ty: nat)
    requires Registers(a, b, ty) && b.table == a.table
    ensures Extends(a, b)
  {
  }

  /**
   * t is t0 after the component has been put at eid in the array with
   * the given code: the arrays are extended to cover the code, that array
   * ends just after eid and keeps its slots below, the others are as they
   * were (or empty, if they are new).
   */
  ghost predicate Placed<C>(t0: seq<seq<Slot<C>>>, t: seq<seq<Slot<C>>>, code: nat, eid: nat, value: C)
  {
    |t| == Max(|t0|, code + 1) &&
    |t[code]| == eid + 1 && t[code][eid] == Slot(true, value) &&
    (forall i | 0 <= i < eid && i < SizeOf(t0, code) :: t[code][i] == t0[code][i]) &&
    (forall k | 0 <= k < |t| && k != code :: t[k] == if k < |t0| then t0[k] else [])
  }

  /** b is a after `add_component<T>(eid, value)` with T = ty. */
  ghost predicate Added<C>(a: ComponentState<C>, b: ComponentState<C>, ty: nat, eid: nat, value: C)
  {
    Registers(a, b, ty) && Placed(a.table, b.table, b.codes[ty], eid, value)
  }

  /**
   * After adding a component of type ty at eid, the entity has it; no
   * higher id has a component of that type; lower ids keep theirs where
   * the array already reached; and nothing changes for any other type.
   */
  lemma AddedMeaning<C>(a: ComponentState<C>, b: ComponentState<C>, ty: nat, eid: nat, value: C)
    requires Added(a, b, ty, eid, value) && DistinctCodes(b.codes)
    ensures ComponentOf(b, ty, eid) == Some(value)
    ensures forall i: nat | i > eid :: ComponentOf(b, ty, i) == None
    ensures forall i: nat | i < eid && i < SizeOf(a.table, b.codes[ty]) :: ComponentOf(b, ty, i) == ComponentOf(a, ty, i)
    ensures forall t: nat, i: nat | t != ty :: ComponentOf(b, t, i) == ComponentOf(a, t, i)
  {
    var code := b.codes[ty];
    forall i: nat | i < eid && i < SizeOf(a.table, code)
      ensures ComponentOf(b, ty, i) == ComponentOf(a, ty, i)
    {
    }
    forall t: nat, i: nat | t != ty
      ensures ComponentOf(b, t, i) == ComponentOf(a, t, i)
    {
      if t in a.codes {
        assert t in b.codes && b.codes[t] == a.codes[t] && b.codes[t] != code;
      }
    }
  }

  /** The arrays after `remove<T>(eid)` on the array with the given code, if there is one. */
  function ClearedAt<C>(table: seq<seq<Slot<C>>>, code: nat, eid: nat): (r: seq<seq<Slot<C>>>)
    ensures |r| == |table|
    ensures forall k | 0 <= k < |r| :: r[k] == if k == code then Cleared(table[k], eid) else table[k]
  {
    if code < |table| then table[code := Cleared(table[code], eid)] else table
  }

  /** The destroyed lists after that removal. */
  function DroppedAt<C>(graveyard: seq<seq<C>>, table: seq<seq<Slot<C>>>, code: nat, eid: nat): (r: seq<seq<C>>)
    requires |graveyard| == |table|
    ensures |r| == |graveyard|
    ensures forall k | 0 <= k < |r| :: r[k] == if k == code then graveyard[k] + Dropped(table[k], eid) else graveyard[k]
  {
    if code < |table| then graveyard[code := graveyard[code] + Dropped(table[code], eid)] else graveyard
  }

  /** b is a after `remove_component<T>(eid)` with T = ty. */
  ghost predicate Removed<C>(a: ComponentState<C>, b: ComponentState<C>, ty: nat, eid: nat)
  {
    Registers(a, b, ty) && b.table == ClearedAt(a.table, b.codes[ty], eid)
  }

  /**
   * After removing the component of type ty from eid, the entity has
   * none; every other (type, id) pair keeps its component.
   */
  lemma RemovedMeaning<C>(a: ComponentState<C>, b: ComponentState<C>, ty: nat, eid: nat)
    requires Removed(a, b, ty, eid) && DistinctCodes(b.codes)
    ensures ComponentOf(b, ty, eid) == None
    ensures forall t: nat, i: nat | t != ty || i != eid :: ComponentOf(b, t, i) == ComponentOf(a, t, i)
  {
    var code := b.codes[ty];
    forall t: nat, i: nat | t != ty || i != eid
      ensures ComponentOf(b, t, i) == ComponentOf(a, t, i)
    {
      if t in a.codes && t != ty {
        assert t in b.codes && b.codes[t] == a.codes[t] && b.codes[t] != code;
      }
    }
  }

  /** Clearing a slot that holds no component changes nothing and destroys nothing. */
  lemma ClearedAtAbsent<C>(cs: ComponentState<C>, graveyard: seq<seq<C>>, ty: nat, eid: nat)
    requires ty in cs.codes && ComponentOf(cs, ty, eid).None? && |graveyard| == |cs.table|
    ensures ClearedAt(cs.table, cs.codes[ty], eid) == cs.table
    ensures DroppedAt(graveyard, cs.table, cs.codes[ty], eid) == graveyard
  {
    var code := cs.codes[ty];
    if code < |cs.table| {
      assert Cleared(cs.table[code], eid) == cs.table[code];
      assert Dropped(cs.table[code], eid) == [];
      assert graveyard[code] + [] == graveyard[code];
    }
  }

  /**
   * `_components`: a StableVector of ComponentArrays, indexed by type
   * code, kept here as a sequence of arrays.
   */
  class ComponentStore<C(0)> {
    var arrays: seq<ComponentArray<C>>
    /** The arrays and everything they own. */
    ghost var Repr: set<object>

    /** The arrays are valid and own disjoint storage. */
    ghost predicate Valid()
      reads this, Repr
    {
      this !in Repr &&
      (forall k | 0 <= k < |arrays| ::
        arrays[k] in Repr && arrays[k].Repr() <= Repr && arrays[k].Valid()) &&
      (forall j, k | 0 <= j < k < |arrays| :: arrays[j].Repr() !! arrays[k].Repr())
    }

    constructor ()
      ensures Valid() && arrays == [] && Repr == {}
    {
      arrays := [];
      Repr := {};
    }

    /** The slots of the arrays with codes below n. */
    ghost function SlotsUpTo(n: nat): (r: seq<seq<Slot<C>>>)
      requires n <= |arrays|
      reads this, arrays
      ensures |r| == n && forall k | 0 <= k < n :: r[k] == arrays[k].Slots()
    {
      if n == 0 then [] else SlotsUpTo(n - 1) + [arrays[n - 1].Slots()]
    }

    /** The components each array has destroyed, by code, below n. */
    ghost function DestroyedUpTo(n: nat): (r: seq<seq<C>>)
      requires n <= |arrays|
      reads this, arrays
      ensures |r| == n && forall k | 0 <= k < n :: r[k] == arrays[k].destroyed
    {
      if n == 0 then [] else DestroyedUpTo(n - 1) + [arrays[n - 1].destroyed]
    }

    /** Every array's slots, indexed by type code. */
    ghost function Table(): (r: seq<seq<Slot<C>>>)
      reads this, arrays
      ensures |r| == |arrays|
    {
      SlotsUpTo(|arrays|)
    }

    /** The table is the sequence of every array's slots. */
    lemma TableIs(t: seq<seq<Slot<C>>>)
      requires |t| == |arrays| && forall k | 0 <= k < |t| :: arrays[k].Slots() == t[k]
      ensures Table() == t
    {
      assert forall k | 0 <= k < |t| :: Table()[k] == t[k];
    }

    /** The graveyard is the sequence of every array's destroyed components. */
    lemma GraveyardIs(g: seq<seq<C>>)
      requires |g| == |arrays| && forall k | 0 <= k < |g| :: arrays[k].destroyed == g[k]
      ensures Graveyard() == g
    {
      assert forall k | 0 <= k < |g| :: Graveyard()[k] == g[k];
    }

    /** Every array's destroyed components, indexed by type code. */
    ghost function Graveyard(): (r: seq<seq<C>>)
      reads this, arrays
      ensures |r| == |arrays|
    {
      DestroyedUpTo(|arrays|)
    }

    /**
     * `_components.resize(n)` when growing: default-constructed, empty
     * arrays are appended until there are n.
     */
    method Grow(n: nat)
      requires Valid()
      modifies this
      ensures Valid() && fresh(Repr - old(Repr))
      ensures |arrays| == Max(old(|arrays|), n) && arrays[..old(|arrays|)] == old(arrays)
      ensures forall k | 0 <= k < old(|arrays|) ::
        arrays[k].Slots() == old(arrays[k].Slots()) && arrays[k].destroyed == old(arrays[k].destroyed)
      ensures forall k | old(|arrays|) <= k < |arrays| :: arrays[k].Slots() == [] && arrays[k].destroyed == []
    {
      ghost var kept := arrays;
      while |arrays| < n
        invariant Valid() && fresh(Repr - old(Repr))
        invariant |kept| <= |arrays| <= Max(|kept|, n) && arrays[..|kept|] == kept
        invariant forall k | 0 <= k < |kept| ::
          kept[k].Slots() == old(kept[k].Slots()) && kept[k].destroyed == old(kept[k].destroyed)
        invariant forall k | |kept| <= k < |arrays| :: arrays[k].Slots() == [] && arrays[k].destroyed == []
      {
        AppendEmpty();
      }
    }

    /** One default-constructed array at the end; the others are untouched. */
    method AppendEmpty()
      requires Valid()
      modifies this
      ensures Valid() && fresh(Repr - old(Repr))
      ensures |arrays| == old(|arrays|) + 1 && arrays[..old(|arrays|)] == old(arrays)
      ensures forall k | 0 <= k < old(|arrays|) ::
        arrays[k].Slots() == old(arrays[k].Slots()) && arrays[k].destroyed == old(arrays[k].destroyed)
      ensures arrays[old(|arrays|)].Slots() == [] && arrays[old(|arrays|)].destroyed == []
    {
      var a := new ComponentArray();
      ghost var before := arrays;
      assert forall k | 0 <= k < |arrays| :: arrays[k].Valid() && arrays[k].Repr() !! a.Repr();
      arrays := arrays + [a];
      Repr := Repr + a.Repr();
      forall k | 0 <= k < |arrays|
        ensures arrays[k] in Repr && arrays[k].Repr() <= Repr && arrays[k].Valid()
      {
        if k < |before| {
          assert arrays[k] == before[k];
        }
      }
      forall j, k | 0 <= j < k < |arrays|
        ensures arrays[j].Repr() !! arrays[k].Repr()
      {
        assert arrays[j] == before[j];
        if k < |before| {
          assert arrays[k] == before[k];
        }
      }
    }

    /**
     * `_components[code].create(eid, ...)`: the array with that code gets a
     * component for the id and ends just after it; its slots below the id
     * are kept; no other array changes and nothing is destroyed.
     */
    method CreateIn(code: nat, eid: EntityId, value: C, zero: C, registry: ComponentRegistry, layout: Layout)
        returns (component: C)
      requires Valid() && code < |arrays| && registry !in Repr
      modifies this, arrays[code].Repr(), registry
      ensures Valid() && fresh(Repr - old(Repr)) && arrays == old(arrays) && component == value
      ensures |registry.layouts| == Max(old(|registry.layouts|), code + 1)
      ensures var a := arrays[code];
        |a.Slots()| == eid + 1 && a.Slots()[eid] == Slot(true, value) &&
        (forall i | 0 <= i < eid && i < |old(a.Slots())| :: a.Slots()[i] == old(a.Slots())[i])
      ensures forall k | 0 <= k < |arrays| :: arrays[k].destroyed == old(arrays[k].destroyed)
      ensures forall k | 0 <= k < |arrays| && k != code :: arrays[k].Slots() == old(arrays[k].Slots())
    {
      component := arrays[code].Create(eid, value, zero, registry, code, layout);
      Repr := Repr + arrays[code].Repr();
      forall k | 0 <= k < |arrays| && k != code
        ensures arrays[k].Valid() && arrays[k].Repr() == old(arrays[k].Repr())
        ensures arrays[k].Slots() == old(arrays[k].Slots())
        ensures arrays[k].destroyed == old(arrays[k].destroyed)
      {
        assert arrays[k].Repr() !! old(arrays[code].Repr());
      }
    }

    /** `_components[code].remove(eid)`: the slot is cleared and an occupied one's component destroyed. */
    method RemoveIn(code: nat, eid: EntityId)
      requires Valid() && code < |arrays| && eid < |arrays[code].Slots()|
      modifies arrays[code].Repr()
      ensures Valid() && Repr == old(Repr)
      ensures Table() == ClearedAt(old(Table()), code, eid)
      ensures Graveyard() == DroppedAt(old(Graveyard()), old(Table()), code, eid)
    {
      ghost var t0, g0 := Table(), Graveyard();
      RemoveSlot(code, eid);
      TableIs(ClearedAt(t0, code, eid));
      GraveyardIs(DroppedAt(g0, t0, code, eid));
    }

    /** RemoveIn, array by array. */
    method RemoveSlot(code: nat, eid: EntityId)
      requires Valid() && code < |arrays| && eid < |arrays[code].Slots()|
      modifies arrays[code].Repr()
      ensures Valid() && Repr == old(Repr)
      ensures var a := arrays[code];
        a.Slots() == Cleared(old(a.Slots()), eid) &&
        a.destroyed == old(a.destroyed) + Dropped(old(a.Slots()), eid)
      ensures forall k | 0 <= k < |arrays| && k != code ::
        arrays[k].Slots() == old(arrays[k].Slots()) && arrays[k].destroyed == old(arrays[k].destroyed)
    {
      arrays[code].Remove(eid);
      forall k | 0 <= k < |arrays| && k != code
        ensures arrays[k].Valid() && arrays[k].Repr() == old(arrays[k].Repr())
        ensures arrays[k].Slots() == old(arrays[k].Slots())
        ensures arrays[k].destroyed == old(arrays[k].destroyed)
      {
        assert arrays[k].Repr() !! arrays[code].Repr();
      }
    }

    /** `remove_dynamic(eid, code)` on one array; the others are untouched. */
    method RemoveFrom(code: nat, eid: EntityId, registry: ComponentRegistry)
      requires Valid() && code < |arrays| && code < |registry.layouts|
      modifies arrays[code].Repr()
      ensures Valid() && Repr == old(Repr)
      ensures var a := arrays[code];
        a.Repr() == old(a.Repr()) &&
        a.Slots() == Cleared(old(a.Slots()), eid) &&
        a.destroyed == old(a.destroyed) + Dropped(old(a.Slots()), eid)
      ensures forall k | 0 <= k < |arrays| && k != code ::
        arrays[k].Repr() == old(arrays[k].Repr()) &&
        arrays[k].Slots() == old(arrays[k].Slots()) &&
        arrays[k].destroyed == old(arrays[k].destroyed)
    {
      arrays[code].RemoveDynamic(eid, code, registry);
      forall k | 0 <= k < |arrays| && k != code
        ensures arrays[k].Valid() && arrays[k].Repr() == old(arrays[k].Repr())
        ensures arrays[k].Slots() == old(arrays[k].Slots())
        ensures arrays[k].destroyed == old(arrays[k].destroyed)
      {
        assert arrays[k].Repr() !! arrays[code].Repr();
      }
    }

    /** The loop of `destroy_entity`: `remove_dynamic(eid, type_code++)` over every array. */
    method RemoveAll(eid: EntityId, registry: ComponentRegistry)
      requires Valid() && |arrays| <= |registry.layouts| && registry !in Repr
      modifies Repr
      ensures Valid() && Repr == old(Repr)
      ensures Table() == ClearedTable(old(Table()), eid)
      ensures Graveyard() == DroppedTable(old(Table()), old(Graveyard()), eid)
    {
      ghost var t0, g0 := Table(), Graveyard();
      var code := 0;
      while code < |arrays|
        invariant code <= |arrays| && Valid() && Repr == old(Repr) && arrays == old(arrays)
        invariant forall k | 0 <= k < code ::
          arrays[k].Slots() == Cleared(t0[k], eid) && arrays[k].destroyed == g0[k] + Dropped(t0[k], eid)
        invariant forall k | code <= k < |arrays| :: arrays[k].Slots() == t0[k] && arrays[k].destroyed == g0[k]
      {
        RemoveFrom(code, eid, registry);
        code := code + 1;
      }
      TableIs(ClearedTable(t0, eid));
      GraveyardIs(DroppedTable(t0, g0, eid));
    }
  }

  class EntityManager<C(0)> {
    /** `_max_eid`. */
    var maxEid: EntityId
    /** `_free_list`, its back at the end. */
    var freeList: seq<EntityId>
    /** `_components`. */
    const store: ComponentStore<C>
    /** The process-wide tables `register_component` fills. */
    const registry: ComponentRegistry
    /** The counter behind `Component<T>::register_type()`. */
    const types: TypeCodeCounter
    /** What a zero-filled slot holds. */
    const zero: C

    /**
     * The arrays are valid and apart from the manager and the global
     * tables; every array index is a type code that has been handed out
     * and is covered by the registered tables.
     */
    ghost predicate Valid()
      reads store, store.Repr, types, registry
    {
      Coherent() && |store.arrays| <= |registry.layouts|
    }

    /** Valid, except that the registered tables may not cover every array yet. */
    ghost predicate Coherent()
      reads store, store.Repr, types
    {
      store.Valid() &&
      this !in store.Repr && types !in store.Repr && registry !in store.Repr &&
      types.Valid() && |store.arrays| <= types.counter
    }

    /** The arrays and the type codes as a value. */
    ghost function State(): ComponentState<C>
      reads store, store.arrays, types
    {
      ComponentState(store.Table(), types.codes)
    }

    /** The allocator's fields as a value. */
    function Ids(): IdState
      reads this
    {
      IdState(maxEid, freeList)
    }

    constructor (registry: ComponentRegistry, types: TypeCodeCounter, zero: C)
      requires types.Valid()
      ensures Valid() && WellFormed(Ids()) && fresh(store)
      ensures maxEid == 0 && freeList == [] && store.arrays == [] && store.Repr == {}
      ensures this.registry == registry && this.types == types && this.zero == zero
    {
      maxEid := 0;
      freeList := [];
      store := new ComponentStore();
      this.registry := registry;
      this.types := types;
      this.zero := zero;
    }

    /** `is_valid(e)`: from 1 up, exactly the live ids. */
    predicate IsValid(e: Entity<C>)
      reads this
      ensures e.eid >= 1 ==> (IsValid(e) <==> e.eid in LiveIds(Ids()))
    {
      if e.eid >= 1 then LiveIdsMeaning(Ids(), e.eid); IsLive(Ids(), e.eid)
      else IsLive(Ids(), e.eid)
    }

    /** `entity_count()`: with a well-formed free list, the number of live ids. */
    function EntityCount(): (n: nat)
      reads this
      ensures WellFormed(Ids()) ==> n == |LiveIds(Ids())|
    {
      CountMeaning(Ids());
      Count(Ids())
    }

    /** `create_entity()`: see NewId, AfterCreate and CreateKeepsWellFormed. */
    method CreateEntity() returns (e: Entity<C>)
      modifies this
      ensures e == Entity(this, NewId(old(Ids()))) && Ids() == AfterCreate(old(Ids()))
    {
      var eid: EntityId;
      if |freeList| == 0 {
        maxEid := (maxEid + 1) % U32_LIMIT;
        eid := maxEid;
      } else {
        eid := freeList[|freeList| - 1];
        freeList := freeList[..|freeList| - 1];
      }
      e := Entity(this, eid);
    }

    /**
     * `destroy_entity(e)`: `remove_dynamic(e.eid, code)` on every array,
     * in code order, then the allocator update of AfterDestroy.
     */
    method DestroyEntity(e: Entity<C>)
      requires Valid()
      modifies this, store.Repr
      ensures Valid() && store.Repr == old(store.Repr)
      ensures store.Table() == ClearedTable(old(store.Table()), e.eid)
      ensures store.Graveyard() == DroppedTable(old(store.Table()), old(store.Graveyard()), e.eid)
      ensures Ids() == AfterDestroy(old(Ids()), e.eid)
    {
      store.RemoveAll(e.eid, registry);
      ReleaseId(e.eid);
    }

    /** The allocator update at the end of `destroy_entity`. */
    method ReleaseId(eid: EntityId)
      requires Valid()
      modifies this
      ensures Valid() && store.Table() == old(store.Table()) && store.Graveyard() == old(store.Graveyard())
      ensures Ids() == AfterDestroy(old(Ids()), eid)
    {
      if eid == maxEid {
        maxEid := (maxEid + U32_LIMIT - 1) % U32_LIMIT;
      } else {
        freeList := freeList + [eid];
      }
    }

    /**
     * `component<T>(e)`: T's code is registered (the first time, the next
     * code is handed out), and the result is the entity's component of
     * that type or null. No array changes.
     */
    method Component(e: Entity<C>, ty: nat) returns (r: Option<C>)
      requires Valid()
      modifies types
      ensures Valid() && Registers(old(State()), State(), ty) && State().table == old(State()).table
      ensures r == ComponentOf(old(State()), ty, e.eid)
    {
      var code := types.Register(ty);
      var arrays := store.arrays;
      if code >= |arrays| || e.eid >= arrays[code].Size() {
        r := None;
      } else {
        r := arrays[code].At(e.eid);
      }
    }

    /**
     * `remove_component<T>(e)`: when `component<T>(e)` is null nothing
     * else happens; otherwise T's code is looked up again and the slot is
     * cleared, destroying the component once.
     */
    method RemoveComponent(e: Entity<C>, ty: nat)
      requires Valid()
      modifies types, store.Repr
      ensures Valid() && store.Repr == old(store.Repr)
      ensures Removed(old(State()), State(), ty, e.eid)
      ensures store.Graveyard() == DroppedAt(old(store.Graveyard()), old(store.Table()), types.codes[ty], e.eid)
    {
      ghost var before, g0 := State(), store.Graveyard();
      var c := Component(e, ty);
      assert store.Graveyard() == g0 && store.Table() == before.table;
      if c.None? {
        ClearedAtAbsent(ComponentState(before.table, State().codes), g0, ty, e.eid);
        return;
      }
      RemovePresent(before, ty, e.eid);
    }

    /** The rest of `remove_component` once the component is known to be there. */
    method RemovePresent(ghost before: ComponentState<C>, ty: nat, eid: EntityId)
      requires Valid() && Registers(before, State(), ty) && State().table == before.table
      requires ComponentOf(before, ty, eid).Some?
      modifies store.Repr
      ensures Valid() && store.Repr == old(store.Repr)
      ensures Removed(before, State(), ty, eid)
      ensures store.Graveyard() == DroppedAt(old(store.Graveyard()), before.table, types.codes[ty], eid)
    {
      var code := types.Registered(ty);
      store.RemoveIn(code, eid);
    }

    /**
     * `ensure_component_index_available(index)`: `_components` is resized
     * to index + 1 when it is not longer than index. The new arrays are
     * empty; the old ones are untouched.
     */
    method EnsureComponentIndexAvailable(index: nat)
      requires Coherent() && index < types.counter
      modifies store
      ensures Coherent() && fresh(store.Repr - old(store.Repr))
      ensures |store.arrays| == Max(old(|store.arrays|), index + 1)
      ensures store.Table() == old(store.Table()) + Blank(|store.arrays| - old(|store.arrays|))
      ensures store.Graveyard() == old(store.Graveyard()) + Blank(|store.arrays| - old(|store.arrays|))
    {
      ghost var t0, g0 := store.Table(), store.Graveyard();
      if index >= |store.arrays| {
        store.Grow(index + 1);
      }
      store.TableIs(t0 + Blank(|store.arrays| - |t0|));
      store.GraveyardIs(g0 + Blank(|store.arrays| - |g0|));
    }

    /**
     * `add_component<T>(e, args...)`: T's code is registered, the arrays
     * are extended to cover it, and the array for T gets the component at
     * the entity's id. That array now ends just after the id, so the
     * components of higher ids are dropped; those of lower ids are kept,
     * and no other type's components change.
     */
    method AddComponent(e: Entity<C>, ty: nat, value: C, layout: Layout) returns (component: C)
      requires Valid()
      modifies types, store, store.Repr, registry
      ensures Valid() && fresh(store.Repr - old(store.Repr)) && component == value
      ensures Added(old(State()), State(), ty, e.eid, value)
      ensures store.Graveyard() == old(store.Graveyard()) + Blank(|store.arrays| - old(|store.arrays|))
    {
      ghost var before := State();
      var code := RegisterType(ty);
      component := AddWithCode(before, ty, code, e.eid, value, layout);
    }

    /** `add_component` once the type's code is known; `before` is the state before registering it. */
    method AddWithCode(ghost before: ComponentState<C>, ty: nat, code: nat, eid: EntityId, value: C, layout: Layout)
        returns (component: C)
      requires Valid() && code < types.counter && before.table == store.Table()
      requires ty in types.codes && code == types.codes[ty] && types.codes == before.codes[ty := code]
      requires ty in before.codes ==> before.codes[ty] == code
      requires ty !in before.codes ==> code >= |store.arrays|
      modifies store, store.Repr, registry
      ensures Valid() && fresh(store.Repr - old(store.Repr)) && component == value
      ensures Added(before, State(), ty, eid, value)
      ensures store.Graveyard() == old(store.Graveyard()) + Blank(|store.arrays| - old(|store.arrays|))
    {
      component := PlaceComponent(code, eid, value, layout);
    }

    /** `Component<T>::register_type()` as the manager sees it: the arrays do not change. */
    method RegisterType(ty: nat) returns (code: nat)
      requires Valid()
      modifies types
      ensures Valid() && code < types.counter
      ensures ty in types.codes && code == types.codes[ty] && types.codes == old(types.codes)[ty := code]
      ensures ty in old(types.codes) ==> old(types.codes)[ty] == code
      ensures ty !in old(types.codes) ==> code >= |store.arrays|
      ensures store.Table() == old(store.Table()) && store.Graveyard() == old(store.Graveyard())
      ensures store.Repr == old(store.Repr)
    {
      ghost var t0, g0 := store.Table(), store.Graveyard();
      code := types.Register(ty);
      assert store.Table() == t0 && store.Graveyard() == g0;
    }

    /**
     * The array half of `add_component`: the arrays are extended to cover
     * the code, and the array for it gets the component at eid.
     */
    method PlaceComponent(code: nat, eid: EntityId, value: C, layout: Layout) returns (component: C)
      requires Valid() && code < types.counter
      modifies store, store.Repr, registry
      ensures Valid() && fresh(store.Repr - old(store.Repr)) && component == value
      ensures Placed(old(store.Table()), store.Table(), code, eid, value)
      ensures store.Graveyard() == old(store.Graveyard()) + Blank(|store.arrays| - old(|store.arrays|))
    {
      ghost var r0 := store.Repr;
      EnsureComponentIndexAvailable(code);
      ghost var r1 := store.Repr;
      component := CreateAt(code, eid, value, layout);
      assert store.Repr - r0 <= (store.Repr - r1) + (r1 - r0);
    }

    /** The array with the given code gets the component at eid. */
    method CreateAt(code: nat, eid: EntityId, value: C, layout: Layout) returns (component: C)
      requires Coherent() && code < |store.arrays| && |store.arrays| <= Max(|registry.layouts|, code + 1)
      modifies store, store.Repr, registry
      ensures Valid() && fresh(store.Repr - old(store.Repr)) && component == value
      ensures var t, t0 := store.Table(), old(store.Table());
        |t| == |t0| && |t[code]| == eid + 1 && t[code][eid] == Slot(true, value) &&
        (forall i | 0 <= i < eid && i < |t0[code]| :: t[code][i] == t0[code][i]) &&
        (forall k | 0 <= k < |t| && k != code :: t[k] == t0[k])
      ensures store.Graveyard() == old(store.Graveyard())
    {
      ghost var t0, g0 := store.Table(), store.Graveyard();
      component := store.CreateIn(code, eid, value, zero, registry, layout);
      store.TableIs(t0[code := store.arrays[code].Slots()]);
      store.GraveyardIs(g0);
    }

    /**
     * `component<T>(e)` for each listed type in turn, as the argument
     * lists of `all_not_null(...)` and of `func(...)` in `for_components`
     * evaluate them. Each type is registered; no component changes.
     */
    method GatherComponents(e: Entity<C>, tys: seq<nat>) returns (found: seq<Option<C>>)
      requires Valid()
      modifies types
      ensures Valid() && Extends(old(State()), State())
      ensures found == Gather(old(State()), tys, e.eid)
    {
      found := [];
      var j := 0;
      while j < |tys|
        invariant j <= |tys| && Valid() && Extends(old(State()), State())
        invariant found == Gather(old(State()), tys[..j], e.eid)
      {
        var c := ComponentSince(old(State()), e, tys[j]);
        assert tys[..j + 1] == tys[..j] + [tys[j]];
        found := found + [c];
        j := j + 1;
      }
      assert tys[..j] == tys;
    }

    /** `component<T>(e)` in terms of a state o that the current one extends. */
    method ComponentSince(ghost o: ComponentState<C>, e: Entity<C>, ty: nat) returns (c: Option<C>)
      requires Valid() && Extends(o, State())
      modifies types
      ensures Valid() && Extends(o, State())
      ensures c == ComponentOf(o, ty, e.eid)
    {
      ghost var mid := State();
      c := Component(e, ty);
      RegistersExtends(mid, State(), ty);
      ExtendsTransitive(o, mid, State());
      ExtendsKeepsComponents(o, mid, ty, e.eid);
    }

    /**
     * `for_components<Ts...>(func)`: for every id from 0 to `_max_eid`,
     * in ascending order, func is called with the entity's components of
     * the listed types when the entity is valid and none of them is null.
     * The calls are returned in order (see VisitsBelowSound,
     * VisitsBelowAscending and VisitsBelowComplete). The counter here is
     * unbounded; see AsWrittenLoopNeverExits for the 32-bit one.
     */
    method ForComponents(tys: seq<nat>) returns (visited: seq<(EntityId, seq<C>)>)
      requires Valid() && |tys| > 0
      modifies types
      ensures Valid() && Extends(old(State()), State())
      ensures visited == VisitsBelow(old(State()), Ids(), tys, maxEid + 1)
    {
      visited := [];
      var i: nat := 0;
      while i <= maxEid
        invariant i <= maxEid + 1 && Valid() && Extends(old(State()), State())
        invariant visited == VisitsBelow(old(State()), Ids(), tys, i)
      {
        var calls := VisitOne(old(State()), Entity(this, i), tys);
        visited := visited + calls;
        i := i + 1;
      }
    }

    /**
     * One round of `for_components`: the call made for e, if any, in
     * terms of a state o that the current one extends.
     */
    method VisitOne(ghost o: ComponentState<C>, e: Entity<C>, tys: seq<nat>) returns (calls: seq<(EntityId, seq<C>)>)
      requires Valid() && |tys| > 0 && Extends(o, State())
      modifies types
      ensures Valid() && Extends(o, State())
      ensures calls == Visit(o, Ids(), tys, e.eid)
    {
      calls := [];
      if IsValid(e) {
        ghost var mid := State();
        var found := GatherComponents(e, tys);
        ExtendsKeepsGather(o, mid, tys, e.eid);
        ExtendsTransitive(o, mid, State());
        if AllNotNull(found) {
          ghost var mid2 := State();
          var args := GatherComponents(e, tys);
          ExtendsKeepsGather(o, mid2, tys, e.eid);
          ExtendsTransitive(o, mid2, State());
          calls := [(e.eid, Values(args))];
        }
      }
    }

    /**
     * `create_entity<Ts...>()`: a new entity, then `add_component` for
     * each listed type in order. The entity ends up with a component of
     * every listed type: for a type listed more than once, the last one.
     */
    method CreateEntityWith(tys: seq<nat>, values: seq<C>, layouts: seq<Layout>) returns (e: Entity<C>)
      requires Valid() && |values| == |tys| && |layouts| == |tys|
      modifies this, types, store, store.Repr, registry
      ensures Valid() && fresh(store.Repr - old(store.Repr))
      ensures e == Entity(this, NewId(old(Ids()))) && Ids() == AfterCreate(old(Ids()))
      ensures forall j | 0 <= j < |tys| && LastBefore(tys, j, |tys|) :: ComponentOf(State(), tys[j], e.eid) == Some(values[j])
    {
      e := CreateEntity();
      var k := 0;
      while k < |tys|
        invariant k <= |tys| && Valid() && fresh(store.Repr - old(store.Repr))
        invariant e == Entity(this, NewId(old(Ids()))) && Ids() == AfterCreate(old(Ids()))
        invariant forall j | 0 <= j < k && LastBefore(tys, j, k) :: ComponentOf(State(), tys[j], e.eid) == Some(values[j])
      {
        AddOneMore(e, tys, values, layouts, k);
        k := k + 1;
      }
    }

    /** One round of `add_components`: the k-th listed type is added. */
    method AddOneMore(e: Entity<C>, tys: seq<nat>, values: seq<C>, layouts: seq<Layout>, k: nat)
      requires Valid() && k < |tys| && |values| == |tys| && |layouts| == |tys|
      requires forall j | 0 <= j < k && LastBefore(tys, j, k) :: ComponentOf(State(), tys[j], e.eid) == Some(values[j])
      modifies types, store, store.Repr, registry
      ensures Valid() && fresh(store.Repr - old(store.Repr))
      ensures forall j | 0 <= j < k + 1 && LastBefore(tys, j, k + 1) :: ComponentOf(State(), tys[j], e.eid) == Some(values[j])
    {
      ghost var before := State();
      var _ := AddComponent(e, tys[k], values[k], layouts[k]);
      AddedKeepsLast(before, State(), tys, values, k, e.eid);
    }
  }

  /**
   * After adding the k-th listed component, every entry that is last
   * below k + 1 holds its value: the k-th one because it was just added,
   * the others because they were last below k and have other types.
   */
  lemma AddedKeepsLast<C>(a: ComponentState<C>, b: ComponentState<C>, tys: seq<nat>, values: seq<C>, k: nat, eid: nat)
    requires k < |tys| && |values| == |tys|
    requires Added(a, b, tys[k], eid, values[k]) && DistinctCodes(b.codes)
    requires forall j | 0 <= j < k && LastBefore(tys, j, k) :: ComponentOf(a, tys[j], eid) == Some(values[j])
    ensures forall j | 0 <= j < k + 1 && LastBefore(tys, j, k + 1) :: ComponentOf(b, tys[j], eid) == Some(values[j])
  {
    AddedMeaning(a, b, tys[k], eid, values[k]);
    forall j | 0 <= j < k + 1 && LastBefore(tys, j, k + 1)
      ensures ComponentOf(b, tys[j], eid) == Some(values[j])
    {
      if j < k {
        LastBeforeShrinks(tys, j, k);
      }
    }
  }

  /** No later entry below k repeats the j-th type. */
  ghost predicate LastBefore(tys: seq<nat>, j: nat, k: nat)
    requires j < k <= |tys|
  {
    forall m | j < m < k :: tys[m] != tys[j]
  }

  /** An entry that is last below k + 1 is last below k and differs from the k-th. */
  lemma LastBeforeShrinks(tys: seq<nat>, j: nat, k: nat)
    requires j < k < |tys| && LastBefore(tys, j, k + 1)
    ensures LastBefore(tys, j, k) && tys[j] != tys[k]
  {
  }

  /** `Entity::is_valid()`: the entity has an owner, and the owner's `is_valid` accepts it. */
  predicate EntityIsValid<C(0)>(e: Entity<C>)
    reads e.owner
  {
    e.owner != null && e.owner.IsValid(e)
  }
}
