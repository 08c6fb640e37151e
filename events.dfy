/**
 * EventManager<TSender>: handlers registered per (sender, event type)
 * and per event type alone ("global"), called in registration order when
 * an event is sent. Senders, listeners and handlers are named by natural
 * numbers; an event type is named by a natural number and gets its code
 * from `Event<T>::type_code()`.
 */
module Events {
  import opened TypeCodes

  /** A `ListenerHandlerTuple`: the listener pointer and its handler. */
  datatype Registration = Registration(listener: nat, handler: nat)

  /** One handler call made by `send_event`: `handler(sender, listener, &event)`. */
  datatype Call = Call(handler: nat, sender: nat, listener: nat)

  /** The list a map holds for a key; `operator[]` gives an empty one for a missing key. */
  function ListOf<K>(m: map<K, seq<Registration>>, k: K): seq<Registration>
  {
    if k in m then m[k] else []
  }

  /** The calls made for one list of registrations, in order. */
  function CallsFor(regs: seq<Registration>, sender: nat): (r: seq<Call>)
    ensures |r| == |regs|
    ensures forall i | 0 <= i < |regs| :: r[i] == Call(regs[i].handler, sender, regs[i].listener)
  {
    seq(|regs|, i requires 0 <= i < |regs| => Call(regs[i].handler, sender, regs[i].listener))
  }

  /**
   * `std::remove_if` followed by `erase` with "the listener is l": the
   * registrations of other listeners, in their original order.
   */
  function Without(regs: seq<Registration>, l: nat): (r: seq<Registration>)
  {
    if |regs| == 0 then []
    else if regs[|regs| - 1].listener == l then Without(regs[..|regs| - 1], l)
    else Without(regs[..|regs| - 1], l) + [regs[|regs| - 1]]
  }

  /** Nothing of l is left, everything else is kept, and nothing is added. */
  lemma {:induction false} WithoutMeaning(regs: seq<Registration>, l: nat)
    ensures forall x | x in Without(regs, l) :: x in regs && x.listener != l
    ensures forall x | x in regs && x.listener != l :: x in Without(regs, l)
    ensures |Without(regs, l)| <= |regs|
  {
    if |regs| > 0 {
      var init := regs[..|regs| - 1];
      WithoutMeaning(init, l);
      assert regs == init + [regs[|regs| - 1]];
    }
  }

  /** The positions of the registrations `Without` keeps, in order. */
  function KeptPositions(regs: seq<Registration>, l: nat): seq<nat>
  {
    if |regs| == 0 then []
    else if regs[|regs| - 1].listener == l then KeptPositions(regs[..|regs| - 1], l)
    else KeptPositions(regs[..|regs| - 1], l) + [|regs| - 1]
  }

  /**
   * The registrations kept are an order-preserving selection of the
   * original: they sit at strictly increasing positions of it.
   */
  lemma {:induction false} WithoutKeepsOrder(regs: seq<Registration>, l: nat)
    ensures Selects(KeptPositions(regs, l), regs, Without(regs, l))
  {
    if |regs| > 0 {
      var init := regs[..|regs| - 1];
      WithoutKeepsOrder(init, l);
      KeptBelow(init, l);
    }
  }

  /** The kept positions lie below the length. */
  lemma {:induction false} KeptBelow(regs: seq<Registration>, l: nat)
    ensures forall i | 0 <= i < |KeptPositions(regs, l)| :: KeptPositions(regs, l)[i] < |regs|
  {
    if |regs| > 0 {
      KeptBelow(regs[..|regs| - 1], l);
    }
  }

  /** pos lists strictly increasing positions of xs, and ys is xs at those positions. */
  ghost predicate Selects<T>(pos: seq<nat>, xs: seq<T>, ys: seq<T>)
  {
    |pos| == |ys| &&
    (forall i | 0 <= i < |pos| :: pos[i] < |xs| && xs[pos[i]] == ys[i]) &&
    (forall i, j | 0 <= i < j < |pos| :: pos[i] < pos[j])
  }

  /** Every list of a map after `remove_listener(l)`. */
  function WithoutIn<K>(m: map<K, seq<Registration>>, l: nat): (r: map<K, seq<Registration>>)
    ensures r.Keys == m.Keys && forall k | k in m :: r[k] == Without(m[k], l)
  {
    map k | k in m :: Without(m[k], l)
  }

  /** Removing a listener that has no registration changes nothing. */
  lemma {:induction false} WithoutAbsent(regs: seq<Registration>, l: nat)
    requires forall x | x in regs :: x.listener != l
    ensures Without(regs, l) == regs
  {
    if |regs| > 0 {
      var init := regs[..|regs| - 1];
      assert forall x | x in init :: x in regs;
      WithoutAbsent(init, l);
      assert regs == init + [regs[|regs| - 1]];
    }
  }

  class EventManager {
    /** `_handlers`: (sender, event type code) to registrations. */
    var handlers: map<(nat, nat), seq<Registration>>
    /** `_global_handlers`: event type code to registrations. */
    var globals: map<nat, seq<Registration>>
    /** The counter behind `Event<T>::type_code()`. */
    const types: TypeCodeCounter

    constructor (types: TypeCodeCounter)
      ensures handlers == map[] && globals == map[] && this.types == types
    {
      handlers := map[];
      globals := map[];
      this.types := types;
    }

    /**
     * `add_listener<TEvent>(sender, listener, handler)`: the registration
     * is appended to the list for (sender, the event type's code); a
     * second registration of the same pair makes a second entry.
     */
    method AddListener(sender: nat, ty: nat, listener: nat, handler: nat)
      requires types.Valid()
      modifies this, types
      ensures types.Valid() && ty in types.codes && (ty in old(types.codes) ==> types.codes == old(types.codes))
      ensures handlers == old(handlers)[(sender, types.codes[ty]) :=
                ListOf(old(handlers), (sender, types.codes[ty])) + [Registration(listener, handler)]]
      ensures globals == old(globals)
    {
      var code := types.Register(ty);
      handlers := handlers[(sender, code) := ListOf(handlers, (sender, code)) + [Registration(listener, handler)]];
    }

    /** `add_listener<TEvent>(listener, handler)`: the same, for the global list of the event type. */
    method AddGlobalListener(ty: nat, listener: nat, handler: nat)
      requires types.Valid()
      modifies this, types
      ensures types.Valid() && ty in types.codes && (ty in old(types.codes) ==> types.codes == old(types.codes))
      ensures globals == old(globals)[types.codes[ty] := ListOf(old(globals), types.codes[ty]) + [Registration(listener, handler)]]
      ensures handlers == old(handlers)
    {
      var code := types.Register(ty);
      globals := globals[code := ListOf(globals, code) + [Registration(listener, handler)]];
    }

    /**
     * `send_event(sender, event)`: the handlers registered for (sender,
     * the event type) in registration order, then the global ones for the
     * event type in registration order, each passed the sender and its
     * listener. Looking the lists up with `operator[]` inserts an empty
     * list for a missing key.
     */
    method SendEvent(sender: nat, ty: nat) returns (calls: seq<Call>)
      requires types.Valid()
      modifies this, types
      ensures types.Valid() && ty in types.codes && (ty in old(types.codes) ==> types.codes == old(types.codes))
      ensures calls == CallsFor(ListOf(old(handlers), (sender, types.codes[ty])), sender) +
                       CallsFor(ListOf(old(globals), types.codes[ty]), sender)
      ensures handlers == old(handlers)[(sender, types.codes[ty]) := ListOf(old(handlers), (sender, types.codes[ty]))]
      ensures globals == old(globals)[types.codes[ty] := ListOf(old(globals), types.codes[ty])]
    {
      var code := types.Register(ty);
      var own := ListOf(handlers, (sender, code));
      handlers := handlers[(sender, code) := own];
      var global := ListOf(globals, code);
      globals := globals[code := global];
      var first := CallEach(own, sender);
      var second := CallEach(global, sender);
      calls := first + second;
    }

    /** The loop over one list: each registration's handler is called, in order. */
    static method CallEach(regs: seq<Registration>, sender: nat) returns (calls: seq<Call>)
      ensures calls == CallsFor(regs, sender)
    {
      calls := [];
      var i := 0;
      while i < |regs|
        invariant i <= |regs| && calls == CallsFor(regs[..i], sender)
      {
        calls := calls + [Call(regs[i].handler, sender, regs[i].listener)];
        i := i + 1;
      }
      assert regs[..i] == regs;
    }

    /**
     * `remove_listener(listener)`: every registration of the listener is
     * erased from every list, sender-specific and global; the other
     * registrations keep their relative order (see WithoutMeaning and
     * WithoutKeepsOrder).
     */
    method RemoveListener(listener: nat)
      modifies this
      ensures handlers == WithoutIn(old(handlers), listener)
      ensures globals == WithoutIn(old(globals), listener)
    {
      handlers := WithoutIn(handlers, listener);
      globals := WithoutIn(globals, listener);
    }
  }

  /**
   * After `add_listener(sender, listener, handler)`, sending that event
   * from that sender makes the earlier sender-specific calls, then the
   * new one, then the global ones; sending it from any other sender, or
   * sending another event type, makes the same calls as before.
   */
  lemma AddThenSend(h0: map<(nat, nat), seq<Registration>>, g: map<nat, seq<Registration>>,
                    sender: nat, code: nat, listener: nat, handler: nat, other: nat, otherCode: nat)
    requires other != sender || otherCode != code
    ensures var h := h0[(sender, code) := ListOf(h0, (sender, code)) + [Registration(listener, handler)]];
      CallsFor(ListOf(h, (sender, code)), sender) ==
        CallsFor(ListOf(h0, (sender, code)), sender) + [Call(handler, sender, listener)] &&
      ListOf(h, (other, otherCode)) == ListOf(h0, (other, otherCode))
  {
    var h := h0[(sender, code) := ListOf(h0, (sender, code)) + [Registration(listener, handler)]];
    assert CallsFor(ListOf(h, (sender, code)), sender) ==
      CallsFor(ListOf(h0, (sender, code)), sender) + [Call(handler, sender, listener)];
  }

  /**
   * Every call `send_event` makes comes from a registration for that
   * sender and event type, or a global one for that event type, and is
   * passed that sender.
   */
  lemma DispatchOnlyRegistered(h: map<(nat, nat), seq<Registration>>, g: map<nat, seq<Registration>>,
                               sender: nat, code: nat, c: Call)
    requires c in CallsFor(ListOf(h, (sender, code)), sender) + CallsFor(ListOf(g, code), sender)
    ensures c.sender == sender
    ensures Registration(c.listener, c.handler) in ListOf(h, (sender, code)) ||
            Registration(c.listener, c.handler) in ListOf(g, code)
  {
    var own, global := CallsFor(ListOf(h, (sender, code)), sender), CallsFor(ListOf(g, code), sender);
    if c in own {
      var i :| 0 <= i < |own| && own[i] == c;
      assert ListOf(h, (sender, code))[i] == Registration(c.listener, c.handler);
    } else {
      assert c in global;
      var i :| 0 <= i < |global| && global[i] == c;
      assert ListOf(g, code)[i] == Registration(c.listener, c.handler);
    }
  }

  /** After `remove_listener(l)`, no event sent from any sender is handed to l. */
  lemma RemovedListenerGetsNothing(h: map<(nat, nat), seq<Registration>>, g: map<nat, seq<Registration>>,
                                   l: nat, sender: nat, code: nat, c: Call)
    requires c in CallsFor(ListOf(WithoutIn(h, l), (sender, code)), sender) +
                  CallsFor(ListOf(WithoutIn(g, l), code), sender)
    ensures c.listener != l
  {
    var h', g' := WithoutIn(h, l), WithoutIn(g, l);
    DispatchOnlyRegistered(h', g', sender, code, c);
    var r := Registration(c.listener, c.handler);
    if r in ListOf(h', (sender, code)) {
      WithoutMeaning(h[(sender, code)], l);
    } else {
      WithoutMeaning(g[code], l);
    }
  }

  /**
   * The test scenario: a listener registered for one sender receives one
   * call with that sender and none from the global list; after
   * `remove_listener` it receives nothing.
   */
  method ListenToSender(types: TypeCodeCounter, sender: nat, listener: nat, handler: nat, ty: nat)
      returns (first: seq<Call>, second: seq<Call>)
    requires types.Valid()
    modifies types
    ensures first == [Call(handler, sender, listener)]
    ensures second == []
  {
    var events := new EventManager(types);
    events.AddListener(sender, ty, listener, handler);
    ghost var code := types.codes[ty];
    ghost var r := Registration(listener, handler);
    assert [] + [r] == [r];
    assert events.handlers == map[(sender, code) := [r]] && events.globals == map[];
    first := SendFirst(events, sender, ty, code, r);
    events.RemoveListener(listener);
    RemovedOnly(sender, code, r);
    second := events.SendEvent(sender, ty);
  }

  /** The first send of the scenario: the one registration is called. */
  method SendFirst(events: EventManager, sender: nat, ty: nat, ghost code: nat, ghost r: Registration) returns (first: seq<Call>)
    requires events.types.Valid() && ty in events.types.codes && events.types.codes[ty] == code
    requires events.handlers == map[(sender, code) := [r]] && events.globals == map[]
    modifies events, events.types
    ensures first == [Call(r.handler, sender, r.listener)]
    ensures events.types.Valid() && ty in events.types.codes && events.types.codes[ty] == code
    ensures events.handlers == map[(sender, code) := [r]] && events.globals == map[code := []]
  {
    first := events.SendEvent(sender, ty);
    assert CallsFor([r], sender) == [Call(r.handler, sender, r.listener)];
  }

  /** Removing the one listener leaves both lists empty. */
  lemma RemovedOnly(sender: nat, code: nat, r: Registration)
    ensures WithoutIn(map[(sender, code) := [r]], r.listener) == map[(sender, code) := []]
    ensures WithoutIn(map[code := []], r.listener) == map[code := []]
  {
    assert Without([r], r.listener) == [];
  }
}
