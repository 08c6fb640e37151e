/**
 * Per-type codes handed out on first use: `Component<T>::register_type()`
 * and `Event<T>::type_code()` both initialise a function-local static
 * from a shared counter the first time they run, and return it ever
 * after. A type is named here by a natural number.
 */
module TypeCodes {
  /** One counter and the codes it has handed out so far. */
  class TypeCodeCounter {
    /** The function-local statics that have been initialised. */
    var codes: map<nat, nat>
    /** `_type_code_counter`. */
    var counter: nat

    /** The codes handed out are distinct and below the counter. */
    ghost predicate Valid()
      reads this
    {
      (forall t | t in codes :: codes[t] < counter) &&
      (forall t, u | t in codes && u in codes && t != u :: codes[t] != codes[u])
    }

    constructor ()
      ensures Valid() && codes == map[] && counter == 0
    {
      codes := map[];
      counter := 0;
    }

    /**
     * `register_type()` / `type_code()`: the first call for a type takes
     * the counter's value and advances it; later calls return the same
     * code and change nothing.
     */
    method Register(ty: nat) returns (code: nat)
      requires Valid()
      modifies this
      ensures Valid() && ty in codes && code == codes[ty]
      ensures ty in old(codes) ==> codes == old(codes) && counter == old(counter)
      ensures ty !in old(codes) ==>
        code == old(counter) && counter == old(counter) + 1 && codes == old(codes)[ty := code]
    {
      if ty in codes {
        code := codes[ty];
      } else {
        code := counter;
        codes := codes[ty := code];
        counter := counter + 1;
      }
    }

    /**
     * `register_type()` / `type_code()` for a type that has been
     * registered: the static is initialised and is returned as it is.
     */
    method Registered(ty: nat) returns (code: nat)
      requires Valid() && ty in codes
      ensures code == codes[ty] && code < counter
    {
      code := codes[ty];
    }
  }

  /**
   * Two types registered one after the other get different codes, and
   * asking again for the first gives its code back.
   */
  method DistinctAndStable(counter: TypeCodeCounter, a: nat, b: nat) returns (ca: nat, cb: nat, again: nat)
    requires counter.Valid() && a != b
    modifies counter
    ensures ca != cb && again == ca
  {
    ca := counter.Register(a);
    cb := counter.Register(b);
    again := counter.Register(a);
  }
}
