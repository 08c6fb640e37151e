/**
 * Variant<TMembers...>: a type index into the member list and storage
 * holding one payload. Construction, copying and destruction of payloads
 * are recorded, in order, in a shared log, so that "the previous payload
 * is destroyed exactly once" can be stated.
 */
module Variants {
  import opened MetaLists

  /** The constructor and destructor calls made on payloads, in order. */
  class Lifecycle<P> {
    var events: seq<LifeEvent<P>>

    constructor ()
      ensures events == []
    {
      events := [];
    }
  }

  class Variant<P(==)> {
    const members: seq<TypeId>
    var typeIndex: nat
    var payload: P

    predicate Valid()
      reads this
    {
      |members| > 0 && typeIndex < |members|
    }

    /** The default constructor: the first member type, default-constructed. */
    constructor Default(members: seq<TypeId>, defaultValue: P, life: Lifecycle<P>)
      requires |members| > 0
      modifies life
      ensures Valid() && this.members == members
      ensures typeIndex == 0 && payload == defaultValue
      ensures life.events == old(life.events) + Construct(members, 0, defaultValue)
    {
      this.members := members;
      typeIndex := 0;
      payload := defaultValue;
      new;
      life.events := life.events + Construct(members, 0, defaultValue);
    }

    /**
     * Construction from a value of a member type: the index is the type's
     * first position in the list.
     */
    constructor Of(members: seq<TypeId>, ty: TypeId, value: P, life: Lifecycle<P>)
      requires |members| > 0 && Member(ty, members)
      modifies life
      ensures Valid() && this.members == members
      ensures typeIndex == IndexOf(ty, members) && payload == value
      ensures life.events == old(life.events) + Construct(members, typeIndex, value)
    {
      this.members := members;
      typeIndex := IndexOf(ty, members);
      payload := value;
      new;
      life.events := life.events + Construct(members, typeIndex, value);
    }

    /** The copy constructor: the same index and a copy of the payload. */
    constructor Copy(other: Variant<P>, life: Lifecycle<P>)
      requires other.Valid()
      modifies life
      ensures Valid() && members == other.members
      ensures typeIndex == other.typeIndex && payload == other.payload
      ensures life.events == old(life.events) + Construct(members, typeIndex, payload)
    {
      members := other.members;
      typeIndex := other.typeIndex;
      payload := other.payload;
      new;
      life.events := life.events + Construct(members, typeIndex, payload);
    }

    /** `has<T>()`: the stored index is the type's first position. */
    predicate Has(ty: TypeId)
      reads this
      requires Valid() && Member(ty, members)
      ensures Has(ty) <==> members[typeIndex] == ty && ty !in members[..typeIndex]
    {
      typeIndex == IndexOf(ty, members)
    }

    /** `get<T>()` reinterprets the storage unchecked; holding T is the caller's obligation. */
    function Get(ty: TypeId): P
      reads this
      requires Valid() && Member(ty, members) && Has(ty)
    {
      payload
    }

    /** `v == g` for g of member type T: v holds a T and that T equals g. */
    predicate EqualsValue(ty: TypeId, g: P)
      reads this
      requires Valid() && Member(ty, members)
      ensures EqualsValue(ty, g) <==> members[typeIndex] == ty && ty !in members[..typeIndex] && payload == g
    {
      Has(ty) && Get(ty) == g
    }

    /** `v != g`. */
    predicate NotEqualsValue(ty: TypeId, g: P)
      reads this
      requires Valid() && Member(ty, members)
    {
      !EqualsValue(ty, g)
    }

    /**
     * Copy assignment between two distinct variants: the current payload is
     * destroyed, then the other's index and payload are copied in. With no
     * self-assignment guard, `v = v` is `SelfAssignedAsWritten`.
     */
    method Assign(other: Variant<P>, life: Lifecycle<P>)
      requires Valid() && other.Valid() && other.members == members
      requires other != this
      modifies this, life
      ensures Valid()
      ensures typeIndex == old(other.typeIndex) && payload == old(other.payload)
      ensures life.events == old(life.events) + Destruct(members, old(typeIndex), old(payload))
                                              + Construct(members, typeIndex, payload)
    {
      life.events := life.events + Destruct(members, typeIndex, payload);
      typeIndex := other.typeIndex;
      payload := other.payload;
      life.events := life.events + Construct(members, typeIndex, payload);
    }

    /** Copy assignment with a `this != &other` guard: assigning a variant to itself does nothing. */
    method AssignChecked(other: Variant<P>, life: Lifecycle<P>)
      requires Valid() && other.Valid() && other.members == members
      modifies this, life
      ensures Valid()
      ensures typeIndex == old(other.typeIndex) && payload == old(other.payload)
      ensures other == this ==> life.events == old(life.events)
      ensures other != this ==> life.events == old(life.events) + Destruct(members, old(typeIndex), old(payload))
                                                                + Construct(members, typeIndex, payload)
    {
      if other != this {
        Assign(other, life);
      }
    }

    /**
     * Assignment from a value: `*this = Variant(t)`. A temporary is built,
     * copy-assigned from, and destroyed at the end of the statement.
     */
    method AssignValue(ty: TypeId, value: P, life: Lifecycle<P>)
      requires Valid() && Member(ty, members)
      modifies this, life
      ensures Valid()
      ensures typeIndex == IndexOf(ty, members) && payload == value
      ensures life.events == old(life.events) + Construct(members, typeIndex, value)
                                              + Destruct(members, old(typeIndex), old(payload))
                                              + Construct(members, typeIndex, value)
                                              + Destruct(members, typeIndex, value)
    {
      var temp := new Variant.Of(members, ty, value, life);
      Assign(temp, life);
      temp.Destroy(life);
    }

    /** The destructor: the current payload is destroyed. */
    method Destroy(life: Lifecycle<P>)
      requires Valid()
      modifies life
      ensures life.events == old(life.events) + Destruct(members, typeIndex, payload)
    {
      life.events := life.events + Destruct(members, typeIndex, payload);
    }
  }

  /** The outcome of a copy assignment: the payload events it makes, or undefined behaviour. */
  datatype AssignOutcome<P> = Defined(events: seq<LifeEvent<P>>) | Undefined

  /**
   * `v = v` as written: the destructor runs on the storage first, and the
   * copy constructor then reads the same storage. That read is of a
   * destroyed object exactly when the held type has a destructor to run,
   * that is, when it is not void; for void nothing happens.
   */
  function SelfAssignedAsWritten<P>(members: seq<TypeId>, typeIndex: nat, payload: P): (r: AssignOutcome<P>)
    requires |members| > 0 && typeIndex < |members|
    ensures r.Undefined? <==> members[typeIndex] != Void
    ensures r.Defined? ==> r.events == []
  {
    var destroyed := Destruct(members, typeIndex, payload);
    if destroyed != [] then Undefined else Defined(destroyed + Construct(members, typeIndex, payload))
  }

  /**
   * A variant holding a non-void type, assigned to itself, copies from its
   * destroyed payload as written; with the guard it keeps its payload and
   * makes no construction or destruction.
   */
  method SelfAssignmentReadsDestroyed<P(==)>(members: seq<TypeId>, ty: TypeId, value: P, life: Lifecycle<P>)
      returns (asWritten: AssignOutcome<P>, kept: P, added: seq<LifeEvent<P>>)
    requires |members| > 0 && Member(ty, members) && ty != Void
    modifies life
    ensures asWritten.Undefined?
    ensures kept == value && added == []
  {
    var v := new Variant.Of(members, ty, value, life);
    asWritten := SelfAssignedAsWritten(members, v.typeIndex, v.payload);
    var before := life.events;
    v.AssignChecked(v, life);
    kept := v.payload;
    added := life.events[|before|..];
  }

  /**
   * For a list of distinct types, constructing from a T makes `has<T>`
   * true, `has<U>` false for every other member U, and `get<T>` the value;
   * and `v == g` holds exactly for values of T equal to the payload.
   */
  method ConstructedHolds<P(==)>(members: seq<TypeId>, ty: TypeId, other: TypeId, value: P, g: P, life: Lifecycle<P>)
      returns (hasTy: bool, hasOther: bool, got: P, eq: bool)
    requires |members| > 0 && Member(ty, members) && Member(other, members) && other != ty
    modifies life
    ensures hasTy && !hasOther && got == value
    ensures eq <==> g == value
  {
    var v := new Variant.Of(members, ty, value, life);
    hasTy := v.Has(ty);
    hasOther := v.Has(other);
    got := v.Get(ty);
    eq := v.EqualsValue(ty, g);
  }

  /**
   * Assigning a value of another member type destroys the previous payload
   * exactly once: among the events the assignment adds, only one destroys
   * something of the old type.
   */
  method AssignmentDestroysOnce<P(==)>(members: seq<TypeId>, first: TypeId, second: TypeId, a: P, b: P, life: Lifecycle<P>)
      returns (added: seq<LifeEvent<P>>)
    requires |members| > 0 && Member(first, members) && Member(second, members)
    requires first != second && first != Void && second != Void
    modifies life
    ensures added == [Constructed(second, b), Destroyed(first, a), Constructed(second, b), Destroyed(second, b)]
  {
    var v := new Variant.Of(members, first, a, life);
    var before := life.events;
    v.AssignValue(second, b, life);
    added := life.events[|before|..];
  }
}
