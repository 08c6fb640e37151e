/**
 * ComponentArray: the components of one type, one slot per entity id.
 * A slot is the component followed by its occupancy flag (`CompData`).
 * The source keeps the slots as bytes in a StableVector<unsigned char>
 * whose slices hold 32 slots; here the StableVector holds slots, also 32
 * to a slice, so that the slice boundaries fall where the source's do.
 */
module ComponentArrays {
  import opened Wrappers
  import opened StableVectors
  import opened Division

  /** Slices are sized to hold 32 components (`stride<TComp>() * 32` bytes). */
  const SLOTS_PER_SLICE: nat := 32

  /** `CompData<TComp>`: the component and its flag. */
  datatype Slot<C> = Slot(flag: bool, value: C)

  /**
   * `stride<TComp>()`: the size of a slot rounded up to its alignment,
   * the least multiple of the alignment that is at least the size.
   */
  function Stride(size: nat, alignment: nat): (r: nat)
    requires alignment > 0
    ensures r >= size && r < size + alignment && r % alignment == 0
  {
    var q := size / alignment;
    var m := size % alignment;
    DivModUnique(size, alignment, q, m);
    if m != 0 then
      DivModUnique(size + (alignment - m), alignment, q + 1, 0);
      size + (alignment - m)
    else size
  }

  /** No multiple of the alignment between the size and the stride. */
  lemma StrideIsLeast(size: nat, alignment: nat, k: nat)
    requires alignment > 0 && k >= size
    ensures k < Stride(size, alignment) ==> k % alignment != 0
  {
    var r := Stride(size, alignment);
    if k < r && k % alignment == 0 {
      var q := size / alignment;
      var p := k / alignment;
      DivModUnique(size, alignment, q, size % alignment);
      DivModUnique(k, alignment, p, 0);
      assert size % alignment != 0;
      if p <= q {
        MulMonotone(p, q, alignment);
        assert false;
      } else {
        MulMonotone(q + 1, p, alignment);
        assert false;
      }
    }
  }

  /** What `register_component` records for a type: its stride and the two field offsets. */
  datatype Layout = Layout(stride: nat, flagOffset: nat, dataOffset: nat)

  /**
   * The process-wide tables `_destructors`, `_sizes`, `_flag_offsets` and
   * `_data_offsets`, indexed by type code; an entry is present once the
   * type's destructor has been recorded.
   */
  class ComponentRegistry {
    var layouts: seq<Option<Layout>>

    constructor ()
      ensures layouts == []
    {
      layouts := [];
    }

    /**
     * `register_component`: the tables grow to cover the type code, and
     * the type's entry is written only if it is not present yet.
     */
    method RegisterComponent(code: nat, layout: Layout)
      modifies this
      ensures |layouts| == Max(old(|layouts|), code + 1)
      ensures code < old(|layouts|) && old(layouts[code]).Some? ==> layouts[code] == old(layouts[code])
      ensures !(code < old(|layouts|) && old(layouts[code]).Some?) ==> layouts[code] == Some(layout)
      ensures forall k | 0 <= k < |layouts| && k != code ::
        layouts[k] == if k < old(|layouts|) then old(layouts[k]) else None
    {
      if code >= |layouts| {
        layouts := layouts + seq(code + 1 - |layouts|, _ => None);
      }
      if layouts[code].None? {
        layouts := layouts[code := Some(layout)];
      }
    }
  }

  /** The occupied indices below n, in ascending order. */
  function OccupiedBelow<C>(slots: seq<Slot<C>>, n: nat): seq<nat>
    requires n <= |slots|
  {
    if n == 0 then []
    else OccupiedBelow(slots, n - 1) + (if slots[n - 1].flag then [n - 1] else [])
  }

  /**
   * The occupied indices below n are exactly the indices below n whose
   * flag is set, strictly ascending.
   */
  lemma {:induction false} OccupiedBelowMeaning<C>(slots: seq<Slot<C>>, n: nat)
    requires n <= |slots|
    ensures var r := OccupiedBelow(slots, n);
      (forall k | 0 <= k < |r| :: r[k] < n && slots[r[k]].flag) &&
      (forall i | 0 <= i < n && slots[i].flag :: i in r) &&
      (forall k, l | 0 <= k < l < |r| :: r[k] < r[l])
  {
    if n > 0 {
      OccupiedBelowMeaning(slots, n - 1);
    }
  }

  /** Unoccupied slots contribute nothing to the occupied indices. */
  lemma {:induction false} OccupiedSkip<C>(slots: seq<Slot<C>>, lo: nat, hi: nat)
    requires lo <= hi <= |slots|
    requires forall j | lo <= j < hi :: !slots[j].flag
    ensures OccupiedBelow(slots, hi) == OccupiedBelow(slots, lo)
    decreases hi
  {
    if lo < hi {
      OccupiedSkip(slots, lo, hi - 1);
    }
  }

  class ComponentArray<C(0)> {
    /** `_data`. */
    const data: StableVector<Slot<C>>
    /** The components whose destructor has run, in order. */
    var destroyed: seq<C>
    /** The objects the array owns: itself, its StableVector and the slices. */
    ghost var repr: set<object>
    /** The slots, as the StableVector holds them. */
    ghost var contents: seq<Slot<C>>

    ghost predicate Valid()
      reads this, repr
    {
      data in repr && repr == {this, data} + data.Repr() &&
      data.Valid() && data.sliceSize == SLOTS_PER_SLICE &&
      contents == data.Elements()
    }

    ghost function Repr(): set<object>
      reads this
    {
      repr
    }

    constructor ()
      ensures Valid() && fresh(Repr()) && Size() == 0 && destroyed == []
    {
      data := new StableVector(SLOTS_PER_SLICE, 8);
      destroyed := [];
      new;
      repr := {this, data} + data.Repr();
      contents := data.Elements();
    }

    /** `size<TComp>()`: the number of slots. */
    function Size(): (r: nat)
      requires Valid()
      reads this, repr
      ensures r == |Slots()|
    {
      data.total
    }

    /** The slots 0 .. size() - 1. */
    ghost function Slots(): seq<Slot<C>>
      reads this
    {
      contents
    }

    /** `at<TComp>(index)`: the component when the slot's flag is set, otherwise null. */
    function At(index: nat): (r: Option<C>)
      requires Valid() && index < Size()
      reads this, repr
      ensures r.Some? <==> Slots()[index].flag
      ensures r.Some? ==> r.value == Slots()[index].value
    {
      var s := data.Get(index);
      if s.flag then Some(s.value) else None
    }

    /**
     * `create<TComp>(index, args...)`: the type is registered, the slots
     * are resized to exactly index + 1 (which drops any slots above, and
     * fills newly allocated slices with zero bytes, here `Slot(false,
     * zero)`), and the slot at index gets the component and its flag.
     * Slots between the old size and index that lie in slices already
     * allocated keep whatever they held before.
     */
    method Create(index: nat, value: C, zero: C, registry: ComponentRegistry, code: nat, layout: Layout)
      returns (component: C)
      requires Valid() && index + 1 < SIZE_T_LIMIT
      modifies Repr(), registry
      ensures Valid() && Size() == index + 1 && component == value
      ensures fresh(Repr() - old(Repr())) && destroyed == old(destroyed)
      ensures Slots()[index] == Slot(true, value)
      ensures forall i | 0 <= i < index && i < old(Size()) :: Slots()[i] == old(Slots())[i]
      ensures forall i | old(Size()) <= i < index ::
        Slots()[i] == if SliceIndex(i, SLOTS_PER_SLICE) < old(|data.slices|)
                      then old(data.slices[SliceIndex(i, SLOTS_PER_SLICE)][ElementIndex(i, SLOTS_PER_SLICE)])
                      else Slot(false, zero)
      ensures forall i | index < i < old(Size()) && SliceIndex(i, SLOTS_PER_SLICE) < |data.slices| ::
        data.slices[SliceIndex(i, SLOTS_PER_SLICE)][ElementIndex(i, SLOTS_PER_SLICE)] == old(Slots())[i]
      ensures |registry.layouts| == Max(old(|registry.layouts|), code + 1)
    {
      Reserve(index, zero, registry, code, layout);
      WriteSlot(index, Slot(true, value));
      component := value;
    }

    /** Writing one slot: only that slot changes, and no other position in the slices. */
    method WriteSlot(index: nat, s: Slot<C>)
      requires Valid() && index < Size()
      modifies this, data.Repr()
      ensures Valid() && Repr() == old(Repr()) && destroyed == old(destroyed)
      ensures Slots() == old(Slots())[index := s]
      ensures forall i | i != index && SliceIndex(i, SLOTS_PER_SLICE) < |data.slices| ::
        data.slices[SliceIndex(i, SLOTS_PER_SLICE)][ElementIndex(i, SLOTS_PER_SLICE)] ==
        old(data.slices[SliceIndex(i, SLOTS_PER_SLICE)][ElementIndex(i, SLOTS_PER_SLICE)])
    {
      data.Put(index, s);
      contents := data.Elements();
      forall i | i != index && SliceIndex(i, SLOTS_PER_SLICE) < |data.slices|
        ensures data.slices[SliceIndex(i, SLOTS_PER_SLICE)][ElementIndex(i, SLOTS_PER_SLICE)] ==
                old(data.slices[SliceIndex(i, SLOTS_PER_SLICE)][ElementIndex(i, SLOTS_PER_SLICE)])
      {
        DistinctPositions(i, index, SLOTS_PER_SLICE);
      }
    }

    /**
     * The part of `create` before the slot is written: the slice size is
     * set while there is no capacity, the type is registered, and the
     * slots are resized to index + 1 with zero fill.
     */
    method Reserve(index: nat, zero: C, registry: ComponentRegistry, code: nat, layout: Layout)
      requires Valid() && index + 1 < SIZE_T_LIMIT
      modifies Repr(), registry
      ensures Valid() && Size() == index + 1
      ensures fresh(Repr() - old(Repr())) && destroyed == old(destroyed)
      ensures forall i | 0 <= i < index && i < old(Size()) :: Slots()[i] == old(Slots())[i]
      ensures forall i | old(Size()) <= i <= index ::
        Slots()[i] == if SliceIndex(i, SLOTS_PER_SLICE) < old(|data.slices|)
                      then old(data.slices[SliceIndex(i, SLOTS_PER_SLICE)][ElementIndex(i, SLOTS_PER_SLICE)])
                      else Slot(false, zero)
      ensures forall i | index < i < old(Size()) && SliceIndex(i, SLOTS_PER_SLICE) < |data.slices| ::
        data.slices[SliceIndex(i, SLOTS_PER_SLICE)][ElementIndex(i, SLOTS_PER_SLICE)] == old(Slots())[i]
      ensures |registry.layouts| == Max(old(|registry.layouts|), code + 1)
    {
      if data.Capacity() == 0 {
        var _ := data.SetSliceSize(SLOTS_PER_SLICE);
      }
      registry.RegisterComponent(code, layout);
      ResizeSlots(index, zero);
    }

    /**
     * `_data.resize((index + 1) * stride, 0)`, in slots: growing keeps
     * the slots and fills the new ones, shrinking truncates.
     */
    method ResizeSlots(index: nat, zero: C)
      requires data.Valid() && data.sliceSize == SLOTS_PER_SLICE && index + 1 < SIZE_T_LIMIT
      requires repr == {this, data} + data.Repr() && contents == data.Elements()
      modifies this, data, data.Repr()
      ensures Valid() && Size() == index + 1
      ensures fresh(Repr() - old(Repr())) && destroyed == old(destroyed)
      ensures forall i | 0 <= i < index && i < old(|contents|) :: Slots()[i] == old(contents)[i]
      ensures forall i | old(|contents|) <= i <= index ::
        Slots()[i] == if SliceIndex(i, SLOTS_PER_SLICE) < old(|data.slices|)
                      then old(data.slices[SliceIndex(i, SLOTS_PER_SLICE)][ElementIndex(i, SLOTS_PER_SLICE)])
                      else Slot(false, zero)
      ensures forall i | index < i < old(|contents|) && SliceIndex(i, SLOTS_PER_SLICE) < |data.slices| ::
        data.slices[SliceIndex(i, SLOTS_PER_SLICE)][ElementIndex(i, SLOTS_PER_SLICE)] == old(contents)[i]
    {
      if index + 1 < data.total {
        ShrinkSlots(index, zero);
      } else {
        GrowSlots(index, zero);
      }
    }

    /** The shrinking case of ResizeSlots: the slots above index are dropped but stay in the kept slices. */
    method ShrinkSlots(index: nat, zero: C)
      requires data.Valid() && data.sliceSize == SLOTS_PER_SLICE && index + 1 < |contents|
      requires repr == {this, data} + data.Repr() && contents == data.Elements()
      modifies this, data, data.Repr()
      ensures Valid() && Size() == index + 1 && data.slices <= old(data.slices)
      ensures fresh(Repr() - old(Repr())) && destroyed == old(destroyed)
      ensures Slots() == old(contents)[..index + 1]
      ensures forall i | index < i < old(|contents|) && SliceIndex(i, SLOTS_PER_SLICE) < |data.slices| ::
        data.slices[SliceIndex(i, SLOTS_PER_SLICE)][ElementIndex(i, SLOTS_PER_SLICE)] == old(contents)[i]
    {
      data.ResizeFill(index + 1, Slot(false, zero));
      repr := {this, data} + data.Repr();
      contents := data.Elements();
      forall i | index < i < old(|contents|) && SliceIndex(i, SLOTS_PER_SLICE) < |data.slices|
        ensures data.slices[SliceIndex(i, SLOTS_PER_SLICE)][ElementIndex(i, SLOTS_PER_SLICE)] == old(contents)[i]
      {
        assert data.slices[SliceIndex(i, SLOTS_PER_SLICE)] == old(data.slices)[SliceIndex(i, SLOTS_PER_SLICE)];
      }
    }

    /** The growing case of ResizeSlots: the slots are kept and the new ones filled. */
    method GrowSlots(index: nat, zero: C)
      requires data.Valid() && data.sliceSize == SLOTS_PER_SLICE && |contents| <= index + 1 < SIZE_T_LIMIT
      requires repr == {this, data} + data.Repr() && contents == data.Elements()
      modifies this, data, data.Repr()
      ensures Valid() && Size() == index + 1
      ensures fresh(Repr() - old(Repr())) && destroyed == old(destroyed)
      ensures Slots()[..old(|contents|)] == old(contents)
      ensures forall i | old(|contents|) <= i <= index ::
        Slots()[i] == if SliceIndex(i, SLOTS_PER_SLICE) < old(|data.slices|)
                      then old(data.slices[SliceIndex(i, SLOTS_PER_SLICE)][ElementIndex(i, SLOTS_PER_SLICE)])
                      else Slot(false, zero)
    {
      data.ResizeFill(index + 1, Slot(false, zero));
      repr := {this, data} + data.Repr();
      contents := data.Elements();
    }

    /** `remove<TComp>(index)`: an occupied slot is cleared and its component destroyed once. */
    method Remove(index: nat)
      requires Valid() && index < Size()
      modifies this, data.Repr()
      ensures Valid() && Size() == old(Size()) && Repr() == old(Repr())
      ensures old(Slots())[index].flag ==>
        Slots() == old(Slots())[index := Slot(false, old(Slots())[index].value)] &&
        destroyed == old(destroyed) + [old(Slots())[index].value]
      ensures !old(Slots())[index].flag ==> Slots() == old(Slots()) && destroyed == old(destroyed)
    {
      var s := data.Get(index);
      if s.flag {
        data.Put(index, Slot(false, s.value));
        destroyed := destroyed + [s.value];
        contents := data.Elements();
      }
    }

    /**
     * `remove_dynamic(index, type_code)`: the type-erased removal used when
     * an entity is destroyed. An index past the slots (the flag's byte
     * offset at or beyond the data) and a clear flag leave everything as
     * it is; otherwise the flag is cleared and the registered destructor
     * runs once. The type code must be within the registered tables.
     */
    method RemoveDynamic(index: nat, code: nat, registry: ComponentRegistry)
      requires Valid() && code < |registry.layouts|
      modifies this, data.Repr()
      ensures Valid() && Size() == old(Size()) && Repr() == old(Repr())
      ensures index >= Size() ==> Slots() == old(Slots()) && destroyed == old(destroyed)
      ensures index < Size() && old(Slots())[index].flag ==>
        Slots() == old(Slots())[index := Slot(false, old(Slots())[index].value)] &&
        destroyed == old(destroyed) + [old(Slots())[index].value]
      ensures index < Size() && !old(Slots())[index].flag ==> Slots() == old(Slots()) && destroyed == old(destroyed)
    {
      if index >= Size() {
        return;
      }
      var s := data.Get(index);
      if !s.flag {
        return;
      }
      data.Put(index, Slot(false, s.value));
      destroyed := destroyed + [s.value];
      contents := data.Elements();
    }

    /**
     * `ComponentArrayIterator::step_to_valid(1)`: from `start`, move past
     * unoccupied slots; the result is an occupied index or, when none is
     * left, the size (or `start` itself if that is already past the end).
     */
    method StepToValid(start: nat) returns (index: nat)
      requires Valid()
      ensures index >= start
      ensures forall j | start <= j < index :: j < Size() && !Slots()[j].flag
      ensures index < Size() ==> Slots()[index].flag
      ensures index >= Size() ==> index == Max(start, Size())
      ensures start <= Size() ==> OccupiedBelow(Slots(), index) == OccupiedBelow(Slots(), start)
      ensures Slots() == old(Slots())
    {
      index := start;
      while index < Size() && At(index).None?
        invariant start <= index <= Max(start, Size())
        invariant forall j | start <= j < index :: j < Size() && !Slots()[j].flag
        decreases Size() - index
      {
        index := index + 1;
      }
      if start <= Size() {
        OccupiedSkip(Slots(), start, index);
      }
    }
  }

  /**
   * Iterating a `ComponentArrayView` from `begin()` to `end()`: `begin()`
   * steps to the first occupied slot, `operator++` advances and steps
   * again, and `end()` is the size. The indices visited are exactly the
   * occupied ones, ascending.
   */
  method VisitOccupied<C(0)>(arr: ComponentArray<C>) returns (visited: seq<nat>)
    requires arr.Valid()
    ensures visited == OccupiedBelow(arr.Slots(), arr.Size())
  {
    visited := [];
    ghost var slots := arr.Slots();
    var size := arr.Size();
    var it := arr.StepToValid(0);
    while it != size
      invariant it <= size == |slots| && (it < size ==> slots[it].flag)
      invariant visited == OccupiedBelow(slots, it)
      decreases size - it
    {
      visited := visited + [it];
      it := arr.StepToValid(it + 1);
    }
  }

  /**
   * Creating below an existing higher index drops the higher slots
   * without destroying them, and creating above again can bring a dropped
   * component back: after create(3, a), create(1, b) and create(4, c),
   * slot 3 reads as a although it was never created again.
   */
  method DroppedSlotReappears<C(0)>(a: C, b: C, c: C, zero: C, registry: ComponentRegistry, layout: Layout)
    returns (sizeAfterShrink: nat, slot3: Option<C>, destroyedCount: nat)
    modifies registry
    ensures sizeAfterShrink == 2 && slot3 == Some(a) && destroyedCount == 0
  {
    var arr := new ComponentArray<C>();
    var _ := arr.Create(3, a, zero, registry, 0, layout);
    ghost var first := arr.Slots();
    assert SliceIndex(3, SLOTS_PER_SLICE) == 0 && ElementIndex(3, SLOTS_PER_SLICE) == 3;
    var _ := arr.Create(1, b, zero, registry, 0, layout);
    sizeAfterShrink := arr.Size();
    assert |arr.data.slices| > 0;
    var _ := arr.Create(4, c, zero, registry, 0, layout);
    slot3 := arr.At(3);
    destroyedCount := |arr.destroyed|;
  }
}
