/**
 * The compile-time type-list functions behind Variant, evaluated on a
 * list of type identities: the maximum of a per-type measure (sizeof or
 * alignof), membership, index lookup, and the runtime dispatch that picks
 * the n-th type of the list and runs a per-type action on it.
 */
module MetaLists {
  import opened Wrappers

  /** A type of a list; `void` has its own identity because the actions skip it. */
  datatype TypeId = Void | Named(name: nat)

  /**
   * `static_max_helper`: the accumulator, at position acc, is kept only
   * when its measure is strictly greater than the next element's;
   * otherwise the next element takes its place. The result is a position.
   */
  function MaxFrom(measure: TypeId -> nat, list: seq<TypeId>, acc: nat, next: nat): (k: nat)
    requires acc < next <= |list|
    ensures acc <= k < |list|
    decreases |list| - next
  {
    if next == |list| then acc
    else if measure(list[acc]) > measure(list[next]) then MaxFrom(measure, list, acc, next + 1)
    else MaxFrom(measure, list, next, next + 1)
  }

  /** `static_max<TPred, TFirst, TRest...>`: the position whose type is `::type`. */
  function MaxIndex(measure: TypeId -> nat, list: seq<TypeId>): (k: nat)
    requires |list| > 0
    ensures k < |list|
  {
    MaxFrom(measure, list, 0, 1)
  }

  /** `static_max<…>::value`. */
  function MaxValue(measure: TypeId -> nat, list: seq<TypeId>): nat
    requires |list| > 0
  {
    measure(list[MaxIndex(measure, list)])
  }

  /** `static_max<…>::type`. */
  function MaxType(measure: TypeId -> nat, list: seq<TypeId>): TypeId
    requires |list| > 0
  {
    list[MaxIndex(measure, list)]
  }

  /**
   * The helper's invariant: the chosen position is the last one in
   * [acc, |list|) with the greatest measure, given that acc already beats
   * or ties everything in (acc, next) and is the last to do so there.
   */
  lemma {:induction false} MaxFromIsLastGreatest(measure: TypeId -> nat, list: seq<TypeId>, acc: nat, next: nat)
    requires acc < next <= |list|
    requires forall j | acc < j < next :: measure(list[j]) < measure(list[acc])
    ensures var k := MaxFrom(measure, list, acc, next);
      (forall j | acc <= j < |list| :: measure(list[j]) <= measure(list[k])) &&
      (forall j | k < j < |list| :: measure(list[j]) < measure(list[k]))
    decreases |list| - next
  {
    if next < |list| {
      if measure(list[acc]) > measure(list[next]) {
        MaxFromIsLastGreatest(measure, list, acc, next + 1);
      } else {
        MaxFromIsLastGreatest(measure, list, next, next + 1);
      }
    }
  }

  /**
   * `static_max::value` is the maximum of the measure over the list, and
   * `::type` is the last type that reaches it: ties go to the later element.
   */
  lemma MaxIsLastGreatest(measure: TypeId -> nat, list: seq<TypeId>)
    requires |list| > 0
    ensures forall j | 0 <= j < |list| :: measure(list[j]) <= MaxValue(measure, list)
    ensures exists j | 0 <= j < |list| :: measure(list[j]) == MaxValue(measure, list)
    ensures var k := MaxIndex(measure, list);
      forall j | k < j < |list| :: measure(list[j]) < MaxValue(measure, list)
  {
    MaxFromIsLastGreatest(measure, list, 0, 1);
  }

  /**
   * `static_member_helper`: the first element matching ends the search
   * with true; a single remaining element decides by `is_same`. An empty
   * haystack has no specialisation, so the list must not be empty.
   */
  function Member(needle: TypeId, list: seq<TypeId>): (r: bool)
    requires |list| > 0
    ensures r <==> needle in list
  {
    if |list| == 1 then needle == list[0]
    else if needle == list[0] then true
    else Member(needle, list[1..])
  }

  /** `static_index_of_helper`: the first matching position, counted from `position`, or the position past the end. */
  function IndexOfFrom(needle: TypeId, list: seq<TypeId>, position: nat): (r: nat)
    ensures position <= r <= position + |list|
    ensures r < position + |list| ==> list[r - position] == needle
    ensures forall j | 0 <= j < r - position :: list[j] != needle
  {
    if |list| == 0 then position
    else if needle == list[0] then position
    else IndexOfFrom(needle, list[1..], position + 1)
  }

  /** `static_index_of`: the position of the first occurrence, or the length of the list when absent. */
  function IndexOf(needle: TypeId, list: seq<TypeId>): (r: nat)
    ensures r <= |list|
    ensures r == |list| <==> needle !in list
    ensures r < |list| ==> list[r] == needle && needle !in list[..r]
  {
    IndexOfFrom(needle, list, 0)
  }

  /**
   * `at_index::operator()<index, …>(n)`: the type the callback is invoked
   * with, walking the list from `index`; nothing when n is out of range.
   */
  function AtIndexFrom(list: seq<TypeId>, index: nat, n: nat): (r: Option<TypeId>)
    requires |list| > 0
    ensures r.Some? <==> index <= n < index + |list|
    ensures r.Some? ==> r.value == list[n - index]
  {
    if n == index then Some(list[0])
    else if |list| == 1 then None
    else AtIndexFrom(list[1..], index + 1, n)
  }

  function AtIndex(list: seq<TypeId>, n: nat): (r: Option<TypeId>)
    requires |list| > 0
    ensures r.Some? <==> n < |list|
    ensures r.Some? ==> r.value == list[n]
  {
    AtIndexFrom(list, 0, n)
  }

  /** What `destruct`, `placement_copy_construct` and `placement_default_construct` do to the storage. */
  datatype LifeEvent<P> = Constructed(ty: TypeId, payload: P) | Destroyed(ty: TypeId, payload: P)

  /** `destruct<TArgs...>(n, data)`: the n-th type's destructor, except for void and for n out of range. */
  function Destruct<P>(list: seq<TypeId>, n: nat, payload: P): (r: seq<LifeEvent<P>>)
    requires |list| > 0
    ensures |r| <= 1
    ensures r != [] <==> n < |list| && list[n] != Void
    ensures r != [] ==> r[0] == Destroyed(list[n], payload)
  {
    match AtIndex(list, n)
    case None => []
    case Some(t) => if t == Void then [] else [Destroyed(t, payload)]
  }

  /** `placement_copy_construct` and `placement_default_construct`: the n-th type's constructor, except for void. */
  function Construct<P>(list: seq<TypeId>, n: nat, payload: P): (r: seq<LifeEvent<P>>)
    requires |list| > 0
    ensures |r| <= 1
    ensures r != [] <==> n < |list| && list[n] != Void
    ensures r != [] ==> r[0] == Constructed(list[n], payload)
  {
    match AtIndex(list, n)
    case None => []
    case Some(t) => if t == Void then [] else [Constructed(t, payload)]
  }
}
