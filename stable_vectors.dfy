/**
 * StableVector<T>: elements kept in equally sized slices that are never
 * moved once allocated, so an element's address survives growth. Element
 * i lives in slice i / slice_size at offset i % slice_size. A slice is an
 * array; the address of an element is the pair (slice array, offset).
 *
 * Sizes are `size_t`: the arithmetic of `slice_index(new_size - 1) + 1`
 * wraps modulo 2^64, which is written out below.
 */
module StableVectors {
  import opened Division

  const SIZE_T_LIMIT: nat := 0x1_0000_0000_0000_0000

  /**
   * `slice_index`: the slice holding element `index`, that is
   * index / slice_size (counted by repeated subtraction, which keeps the
   * proofs about it linear; `SliceLayoutIsDivision` shows it is the
   * quotient).
   */
  function SliceIndex(index: nat, sliceSize: nat): (k: nat)
    requires sliceSize > 0
    ensures k <= index
    decreases index
  {
    if index < sliceSize then 0 else SliceIndex(index - sliceSize, sliceSize) + 1
  }

  /** `element_index`: the offset of element `index` inside its slice, index % slice_size. */
  function ElementIndex(index: nat, sliceSize: nat): (e: nat)
    requires sliceSize > 0
    ensures e < sliceSize && e <= index
    decreases index
  {
    if index < sliceSize then index else ElementIndex(index - sliceSize, sliceSize)
  }

  /** The number of elements c slices hold: c * slice_size, as a sum. */
  function SlotsIn(c: nat, sliceSize: nat): (r: nat)
    ensures c > 0 ==> r >= sliceSize
  {
    if c == 0 then 0 else SlotsIn(c - 1, sliceSize) + sliceSize
  }

  /** Counting slices and offsets accounts for every element before `index`. */
  lemma {:induction false} SliceLayoutSum(index: nat, sliceSize: nat)
    requires sliceSize > 0
    ensures index == SlotsIn(SliceIndex(index, sliceSize), sliceSize) + ElementIndex(index, sliceSize)
    decreases index
  {
    if index >= sliceSize {
      SliceLayoutSum(index - sliceSize, sliceSize);
    }
  }

  /** The layout is the quotient and remainder of the division by the slice size. */
  lemma SliceLayoutIsDivision(index: nat, sliceSize: nat)
    requires sliceSize > 0
    ensures SliceIndex(index, sliceSize) == index / sliceSize
    ensures ElementIndex(index, sliceSize) == index % sliceSize
    ensures index == SlotsIn(SliceIndex(index, sliceSize), sliceSize) + ElementIndex(index, sliceSize)
  {
    var k := SliceIndex(index, sliceSize);
    var e := ElementIndex(index, sliceSize);
    SliceLayoutSum(index, sliceSize);
    SlotsInIsProduct(k, sliceSize);
    assert index == k * sliceSize + e;
    DivModUnique(index, sliceSize, k, e);
  }

  /** c slices hold c * slice_size elements. */
  lemma {:induction false} SlotsInIsProduct(c: nat, sliceSize: nat)
    ensures SlotsIn(c, sliceSize) == sliceSize * c
  {
    if c > 0 {
      SlotsInIsProduct(c - 1, sliceSize);
      assert sliceSize * c == sliceSize * (c - 1) + sliceSize;
    }
  }

  /** An index below the capacity of c slices lies in one of them. */
  lemma {:induction false} SliceInRange(index: nat, sliceSize: nat, c: nat)
    requires sliceSize > 0 && index < SlotsIn(c, sliceSize)
    ensures SliceIndex(index, sliceSize) < c
    decreases index
  {
    if index >= sliceSize {
      SliceInRange(index - sliceSize, sliceSize, c - 1);
    }
  }

  /** Distinct indices have distinct (slice, offset) positions. */
  lemma {:induction false} DistinctPositions(i: nat, j: nat, sliceSize: nat)
    requires sliceSize > 0 && i != j
    ensures SliceIndex(i, sliceSize) != SliceIndex(j, sliceSize) || ElementIndex(i, sliceSize) != ElementIndex(j, sliceSize)
    decreases i
  {
    if i >= sliceSize && j >= sliceSize {
      DistinctPositions(i - sliceSize, j - sliceSize, sliceSize);
    }
  }

  /** Slices up to the one holding n - 1 hold n elements. */
  lemma {:induction false} SlotsThroughSlice(n: nat, sliceSize: nat)
    requires sliceSize > 0 && n > 0
    ensures n <= SlotsIn(SliceIndex(n - 1, sliceSize) + 1, sliceSize)
    ensures SlotsIn(SliceIndex(n - 1, sliceSize), sliceSize) < n
    decreases n
  {
    if n - 1 >= sliceSize {
      SlotsThroughSlice(n - sliceSize, sliceSize);
    }
  }

  /** More slices hold more elements. */
  lemma {:induction false} SlotsInMonotone(a: nat, b: nat, sliceSize: nat)
    requires a <= b
    ensures SlotsIn(a, sliceSize) <= SlotsIn(b, sliceSize)
    decreases b
  {
    if a < b {
      SlotsInMonotone(a, b - 1, sliceSize);
    }
  }

  /** With slice size 1 index i is in slice i; with a larger size the slice index of a positive index is smaller. */
  lemma {:induction false} SliceIndexBelow(index: nat, sliceSize: nat)
    requires sliceSize > 0
    ensures sliceSize == 1 ==> SliceIndex(index, sliceSize) == index
    ensures sliceSize > 1 && index > 0 ==> SliceIndex(index, sliceSize) < index
    decreases index
  {
    if index >= sliceSize {
      SliceIndexBelow(index - sliceSize, sliceSize);
    }
  }

  /**
   * `slice_index(new_size - 1) + 1` in `size_t` arithmetic. For a positive
   * size it is the least number of slices holding that many elements. For
   * size 0 the subtraction wraps, and the result is slice_index(2^64 - 1) + 1,
   * which itself wraps to 0 when the slice size is 1.
   */
  function RequiredSlices(n: nat, sliceSize: nat): (r: nat)
    requires sliceSize > 0 && n < SIZE_T_LIMIT
  {
    (SliceIndex((n + SIZE_T_LIMIT - 1) % SIZE_T_LIMIT, sliceSize) + 1) % SIZE_T_LIMIT
  }

  /**
   * For a positive size the required slices are the fewest that hold n
   * elements. For size 0 they are none when the slice size is 1 and
   * otherwise more than any positive size needs.
   */
  lemma RequiredSlicesMeaning(n: nat, sliceSize: nat)
    requires sliceSize > 0 && n < SIZE_T_LIMIT
    ensures n > 0 ==> var r := RequiredSlices(n, sliceSize);
      r > 0 && SlotsIn(r - 1, sliceSize) < n <= SlotsIn(r, sliceSize)
    ensures n == 0 && sliceSize == 1 ==> RequiredSlices(n, sliceSize) == 0
    ensures n == 0 && sliceSize > 1 ==>
      RequiredSlices(n, sliceSize) == SliceIndex(SIZE_T_LIMIT - 1, sliceSize) + 1 &&
      forall m | 0 < m < SIZE_T_LIMIT :: RequiredSlices(m, sliceSize) <= RequiredSlices(n, sliceSize)
  {
    if n > 0 {
      RequiredSlicesPositive(n, sliceSize);
    } else {
      RequiredSlicesAtZero(sliceSize);
    }
  }

  lemma RequiredSlicesPositive(n: nat, sliceSize: nat)
    requires sliceSize > 0 && 0 < n < SIZE_T_LIMIT
    ensures RequiredSlices(n, sliceSize) == SliceIndex(n - 1, sliceSize) + 1
    ensures var r := RequiredSlices(n, sliceSize);
      r > 0 && SlotsIn(r - 1, sliceSize) < n <= SlotsIn(r, sliceSize)
  {
    assert (n + SIZE_T_LIMIT - 1) % SIZE_T_LIMIT == n - 1;
    SliceIndexBelow(n - 1, sliceSize);
    SlotsThroughSlice(n, sliceSize);
  }

  lemma RequiredSlicesAtZero(sliceSize: nat)
    requires sliceSize > 0
    ensures sliceSize == 1 ==> RequiredSlices(0, sliceSize) == 0
    ensures sliceSize > 1 ==>
      RequiredSlices(0, sliceSize) == SliceIndex(SIZE_T_LIMIT - 1, sliceSize) + 1 &&
      forall m | 0 < m < SIZE_T_LIMIT :: RequiredSlices(m, sliceSize) <= RequiredSlices(0, sliceSize)
  {
    assert (SIZE_T_LIMIT - 1) % SIZE_T_LIMIT == SIZE_T_LIMIT - 1;
    SliceIndexBelow(SIZE_T_LIMIT - 1, sliceSize);
    if sliceSize > 1 {
      forall m | 0 < m < SIZE_T_LIMIT
        ensures RequiredSlices(m, sliceSize) <= RequiredSlices(0, sliceSize)
      {
        RequiredSlicesPositive(m, sliceSize);
        SliceIndexMonotone(m - 1, SIZE_T_LIMIT - 1, sliceSize);
      }
    }
  }

  lemma {:induction false} SliceIndexMonotone(i: nat, j: nat, sliceSize: nat)
    requires sliceSize > 0 && i <= j
    ensures SliceIndex(i, sliceSize) <= SliceIndex(j, sliceSize)
    decreases i
  {
    if i >= sliceSize {
      SliceIndexMonotone(i - sliceSize, j - sliceSize, sliceSize);
    }
  }

  function Min(a: nat, b: nat): nat { if a <= b then a else b }
  function Max(a: nat, b: nat): nat { if a >= b then a else b }

  class StableVector<T(0)> {
    /** `_element_arrays`: the slices, in order. */
    var slices: seq<array<T>>
    var sliceSize: nat
    /** `_total_size`. */
    var total: nat
    var alignment: nat

    /** `capacity()`: the elements the slices hold. */
    function Capacity(): nat
      reads this
    {
      SlotsIn(|slices|, sliceSize)
    }

    /** The capacity is slice_size times the number of slices. */
    lemma CapacityIsProduct()
      ensures Capacity() == sliceSize * |slices|
    {
      SlotsInIsProduct(|slices|, sliceSize);
    }

    ghost function Repr(): set<array<T>>
      reads this
    {
      set k | 0 <= k < |slices| :: slices[k]
    }

    /**
     * Every slice has slice_size entries and is a separate allocation,
     * slices only exist with a positive slice size, and the size fits in
     * the capacity.
     */
    ghost predicate Valid()
      reads this
    {
      (forall k | 0 <= k < |slices| :: slices[k].Length == sliceSize) &&
      (forall k, l | 0 <= k < l < |slices| :: slices[k] != slices[l]) &&
      (|slices| > 0 ==> sliceSize > 0) &&
      total <= Capacity() && total < SIZE_T_LIMIT
    }

    /**
     * The elements 0 .. size() - 1, read through the slice layout. The
     * slice index is always in range (SliceInRange); the guard keeps the
     * lambda total, so that the sequence depends on the heap only through
     * the slices it reads.
     */
    ghost function Elements(): (r: seq<T>)
      requires Valid() && sliceSize > 0
      reads this, Repr()
      ensures |r| == total
    {
      var sl := slices;
      var s := sliceSize;
      var n := total;
      seq(n, i requires 0 <= i < n reads set k | 0 <= k < |sl| :: sl[k] =>
        if SliceIndex(i, s) < |sl| then sl[SliceIndex(i, s)][ElementIndex(i, s)] else sl[0][0])
    }

    /** The default arguments: slices of 32 elements aligned to 8 bytes. */
    constructor Default()
      ensures Valid() && slices == [] && total == 0 && Capacity() == 0
      ensures sliceSize == 32 && alignment == 8
    {
      slices := [];
      sliceSize := 32;
      total := 0;
      alignment := 8;
    }

    /** A new vector has size 0, is empty and has no slices. */
    constructor (sliceSize: nat, alignment: nat)
      ensures Valid() && slices == [] && total == 0 && Capacity() == 0
      ensures this.sliceSize == sliceSize && this.alignment == alignment
    {
      slices := [];
      this.sliceSize := sliceSize;
      total := 0;
      this.alignment := alignment;
    }

    predicate Empty()
      reads this
    {
      total == 0
    }

    /**
     * `set_slice_size`: refused (the source throws `range_error`) unless
     * the capacity is 0; otherwise only the slice size changes.
     */
    method SetSliceSize(size: nat) returns (thrown: bool)
      requires Valid()
      modifies this
      ensures Valid()
      ensures thrown <==> old(Capacity()) != 0
      ensures sliceSize == (if thrown then old(sliceSize) else size)
      ensures slices == old(slices) && total == old(total) && alignment == old(alignment)
    {
      if Capacity() != 0 {
        return true;
      }
      sliceSize := size;
      return false;
    }

    /** `set_slice_data_alignment`: recorded for slices allocated later. */
    method SetSliceDataAlignment(a: nat)
      modifies this`alignment
      ensures alignment == a
    {
      alignment := a;
    }

    /** `operator[]` read: the entry at slice_index(index), element_index(index). */
    function Get(index: nat): (r: T)
      requires Valid() && sliceSize > 0 && index < total
      reads this, Repr()
      ensures r == Elements()[index]
    {
      SliceInRange(index, sliceSize, |slices|);
      slices[SliceIndex(index, sliceSize)][ElementIndex(index, sliceSize)]
    }

    /** `operator[]` write: exactly element `index` changes; no slice moves. */
    method Put(index: nat, v: T)
      requires Valid() && sliceSize > 0 && index < total
      modifies Repr()
      ensures Valid() && Elements() == old(Elements())[index := v]
      ensures slices == old(slices)
      ensures forall k, e | 0 <= k < |slices| && 0 <= e < sliceSize &&
          (k != SliceIndex(index, sliceSize) || e != ElementIndex(index, sliceSize)) ::
        slices[k][e] == old(slices[k][e])
    {
      SliceInRange(index, sliceSize, |slices|);
      var k := SliceIndex(index, sliceSize);
      var e := ElementIndex(index, sliceSize);
      slices[k][e] := v;
      forall j | 0 <= j < total
        ensures Elements()[j] == old(Elements())[index := v][j]
      {
        SliceInRange(j, sliceSize, |slices|);
        if j != index {
          DistinctPositions(j, index, sliceSize);
        }
      }
    }

    /** The growing loop of `resize(new_size)`: default-constructed slices are appended until there are `required`. */
    method Grow(required: nat)
      requires Valid() && sliceSize > 0
      modifies this
      ensures Valid() && total == old(total) && sliceSize == old(sliceSize) && alignment == old(alignment)
      ensures |slices| == Max(old(|slices|), required) && slices[..old(|slices|)] == old(slices)
      ensures forall k | old(|slices|) <= k < |slices| :: fresh(slices[k])
    {
      while |slices| < required
        invariant old(|slices|) <= |slices| <= Max(old(|slices|), required)
        invariant slices[..old(|slices|)] == old(slices)
        invariant forall k | old(|slices|) <= k < |slices| :: fresh(slices[k])
        invariant Valid() && total == old(total) && sliceSize == old(sliceSize) && alignment == old(alignment)
        decreases required - |slices|
      {
        var slice := new T[sliceSize];
        SlotsInMonotone(|slices|, |slices| + 1, sliceSize);
        slices := slices + [slice];
      }
    }

    /** The shrinking loop of `resize(new_size)`: trailing slices are freed while there are more than `required`. */
    method Shrink(required: nat)
      requires Valid() && sliceSize > 0
      modifies this
      ensures total == old(total) && sliceSize == old(sliceSize) && alignment == old(alignment)
      ensures slices == old(slices)[..Min(old(|slices|), required)]
    {
      while |slices| > required
        invariant Min(old(|slices|), required) <= |slices| <= old(|slices|)
        invariant slices == old(slices)[..|slices|]
        invariant total == old(total) && sliceSize == old(sliceSize) && alignment == old(alignment)
      {
        slices := slices[..|slices| - 1];
      }
    }

    /**
     * `resize(new_size)`. Growing appends default-constructed slices until
     * there are at least `required_slices`; otherwise trailing slices are
     * freed while there are more than `required_slices`. Kept slices are
     * the same arrays with the same contents, so no element moves.
     */
    method Resize(n: nat)
      requires Valid() && sliceSize > 0 && n < SIZE_T_LIMIT
      modifies this
      ensures Valid() && total == n && sliceSize == old(sliceSize) && alignment == old(alignment)
      ensures n > old(total) ==>
        |slices| == Max(old(|slices|), RequiredSlices(n, sliceSize)) &&
        slices[..old(|slices|)] == old(slices) &&
        (forall k | old(|slices|) <= k < |slices| :: fresh(slices[k]))
      ensures n > old(total) ==> Elements()[..old(total)] == old(Elements())
      ensures n > old(total) ==>
        forall i | old(total) <= i < n && SliceIndex(i, sliceSize) < old(|slices|) ::
          Elements()[i] == old(slices[SliceIndex(i, sliceSize)][ElementIndex(i, sliceSize)])
      ensures n <= old(total) ==>
        slices == old(slices)[..Min(old(|slices|), RequiredSlices(n, sliceSize))] &&
        Elements() == old(Elements())[..n]
    {
      if n > total {
        ResizeUp(n);
      } else {
        ResizeDown(n);
      }
    }

    /** The first branch of `resize(new_size)`, for a size above the current one. */
    method ResizeUp(n: nat)
      requires Valid() && sliceSize > 0 && total < n < SIZE_T_LIMIT
      modifies this
      ensures Valid() && total == n && sliceSize == old(sliceSize) && alignment == old(alignment)
      ensures |slices| == Max(old(|slices|), RequiredSlices(n, sliceSize))
      ensures slices[..old(|slices|)] == old(slices)
      ensures forall k | old(|slices|) <= k < |slices| :: fresh(slices[k])
      ensures Elements()[..old(total)] == old(Elements())
      ensures forall i | old(total) <= i < n && SliceIndex(i, sliceSize) < old(|slices|) ::
        Elements()[i] == old(slices[SliceIndex(i, sliceSize)][ElementIndex(i, sliceSize)])
    {
      var required := RequiredSlices(n, sliceSize);
      RequiredSlicesMeaning(n, sliceSize);
      Grow(required);
      SlotsInMonotone(required, |slices|, sliceSize);
      total := n;
      GrownElements(old(slices), old(total));
      KeptElements(old(slices), old(total), old(Elements()));
    }

    /** The second branch of `resize(new_size)`, for a size at most the current one. */
    method ResizeDown(n: nat)
      requires Valid() && sliceSize > 0 && n <= total
      modifies this
      ensures Valid() && total == n && sliceSize == old(sliceSize) && alignment == old(alignment)
      ensures slices == old(slices)[..Min(old(|slices|), RequiredSlices(n, sliceSize))]
      ensures Elements() == old(Elements())[..n]
    {
      var required := RequiredSlices(n, sliceSize);
      RequiredSlicesMeaning(n, sliceSize);
      Shrink(required);
      if |slices| < old(|slices|) && n > 0 {
        SlotsInMonotone(required, |slices|, sliceSize);
      }
      total := n;
      ShrunkElements(old(slices), old(total));
    }

    /**
     * `resize(new_size, fill_value)`: a smaller size goes through
     * `resize(new_size)`. Otherwise slices are appended until there are
     * `required_slices`, each filled with the value; entries between the
     * old and new size that lie in slices already allocated keep their
     * previous contents.
     */
    method ResizeFill(n: nat, fill: T)
      requires Valid() && sliceSize > 0 && n < SIZE_T_LIMIT
      modifies this
      ensures Valid() && total == n && sliceSize == old(sliceSize) && alignment == old(alignment)
      ensures n >= old(total) ==>
        |slices| == Max(old(|slices|), RequiredSlices(n, sliceSize)) &&
        slices[..old(|slices|)] == old(slices) &&
        (forall k | old(|slices|) <= k < |slices| :: fresh(slices[k]) && slices[k][..] == seq(sliceSize, _ => fill))
      ensures n >= old(total) ==> Elements()[..old(total)] == old(Elements())
      ensures n >= old(total) ==>
        forall i | old(total) <= i < n ::
          Elements()[i] == if SliceIndex(i, sliceSize) < old(|slices|)
                           then old(slices[SliceIndex(i, sliceSize)][ElementIndex(i, sliceSize)])
                           else fill
      ensures n < old(total) ==>
        slices == old(slices)[..Min(old(|slices|), RequiredSlices(n, sliceSize))] &&
        Elements() == old(Elements())[..n]
    {
      if n < total {
        Resize(n);
      } else {
        ResizeFillUp(n, fill);
      }
    }

    /** The second branch of `resize(new_size, fill_value)`, for a size at least the current one. */
    method ResizeFillUp(n: nat, fill: T)
      requires Valid() && sliceSize > 0 && total <= n < SIZE_T_LIMIT
      modifies this
      ensures Valid() && total == n && sliceSize == old(sliceSize) && alignment == old(alignment)
      ensures |slices| == Max(old(|slices|), RequiredSlices(n, sliceSize))
      ensures slices[..old(|slices|)] == old(slices)
      ensures forall k | old(|slices|) <= k < |slices| :: fresh(slices[k]) && slices[k][..] == seq(sliceSize, _ => fill)
      ensures Elements()[..old(total)] == old(Elements())
      ensures forall i | old(total) <= i < n ::
        Elements()[i] == if SliceIndex(i, sliceSize) < old(|slices|)
                         then old(slices[SliceIndex(i, sliceSize)][ElementIndex(i, sliceSize)])
                         else fill
    {
      var required := RequiredSlices(n, sliceSize);
      RequiredSlicesMeaning(n, sliceSize);
      GrowFilled(required, fill);
      if n > 0 {
        SlotsInMonotone(required, |slices|, sliceSize);
      }
      total := n;
      GrownElements(old(slices), old(total));
      KeptElements(old(slices), old(total), old(Elements()));
      FilledElements(old(|slices|), old(total), fill);
    }

    /** The growing loop of `resize(new_size, fill_value)`: filled slices are appended until there are `required`. */
    method GrowFilled(required: nat, fill: T)
      requires Valid() && sliceSize > 0
      modifies this
      ensures Valid() && total == old(total) && sliceSize == old(sliceSize) && alignment == old(alignment)
      ensures |slices| == Max(old(|slices|), required) && slices[..old(|slices|)] == old(slices)
      ensures forall k | old(|slices|) <= k < |slices| :: fresh(slices[k]) && slices[k][..] == seq(sliceSize, _ => fill)
    {
      while |slices| < required
        invariant old(|slices|) <= |slices| <= Max(old(|slices|), required)
        invariant slices[..old(|slices|)] == old(slices)
        invariant forall k | old(|slices|) <= k < |slices| :: fresh(slices[k]) && slices[k][..] == seq(sliceSize, _ => fill)
        invariant Valid() && total == old(total) && sliceSize == old(sliceSize) && alignment == old(alignment)
        decreases required - |slices|
      {
        var slice := NewFilledSlice(fill);
        SlotsInMonotone(|slices|, |slices| + 1, sliceSize);
        slices := slices + [slice];
      }
    }

    /** `new T[_slice_size]` followed by the loop writing the fill value into every entry. */
    method NewFilledSlice(fill: T) returns (slice: array<T>)
      ensures fresh(slice) && slice.Length == sliceSize && slice[..] == seq(sliceSize, _ => fill)
    {
      slice := new T[sliceSize];
      var e := 0;
      while e < sliceSize
        invariant 0 <= e <= sliceSize
        invariant forall j | 0 <= j < e :: slice[j] == fill
      {
        slice[e] := fill;
        e := e + 1;
      }
    }

    /** `ensure_valid_index`: an index at or past the size grows the vector to index + 1. */
    method EnsureValidIndex(index: nat)
      requires Valid() && sliceSize > 0 && index + 1 < SIZE_T_LIMIT
      modifies this
      ensures Valid() && sliceSize == old(sliceSize) && alignment == old(alignment)
      ensures index < old(total) ==> total == old(total) && slices == old(slices)
      ensures index >= old(total) ==> total == index + 1 && |slices| >= old(|slices|) && slices[..old(|slices|)] == old(slices)
      ensures index >= old(total) ==> forall k | old(|slices|) <= k < |slices| :: fresh(slices[k])
      ensures index >= old(total) ==> Elements()[..old(total)] == old(Elements())
    {
      if index >= total {
        Resize(index + 1);
      }
    }

    /**
     * `push_back`: the size grows by one, the new last element is v, the
     * earlier elements are unchanged and every slice already allocated
     * stays where it was.
     */
    method PushBack(v: T)
      requires Valid() && sliceSize > 0 && total + 1 < SIZE_T_LIMIT
      modifies this, Repr()
      ensures Valid() && sliceSize == old(sliceSize) && alignment == old(alignment)
      ensures Elements() == old(Elements()) + [v]
      ensures |slices| >= old(|slices|) && slices[..old(|slices|)] == old(slices)
      ensures forall k | old(|slices|) <= k < |slices| :: fresh(slices[k])
    {
      EnsureValidIndex(total);
      ghost var grown := Elements();
      Put(total - 1, v);
      assert Elements() == grown[total - 1 := v];
      assert grown[..total - 1] == old(Elements());
    }

    /** The element reading of a grown vector agrees with the old slices. */
    lemma GrownElements(prev: seq<array<T>>, prevTotal: nat)
      requires Valid() && sliceSize > 0
      requires |prev| <= |slices| && slices[..|prev|] == prev && prevTotal <= total
      requires forall k | 0 <= k < |prev| :: prev[k].Length == sliceSize
      ensures forall i | 0 <= i < total && SliceIndex(i, sliceSize) < |prev| ::
        Elements()[i] == prev[SliceIndex(i, sliceSize)][ElementIndex(i, sliceSize)]
    {
      forall i | 0 <= i < total && SliceIndex(i, sliceSize) < |prev|
        ensures Elements()[i] == prev[SliceIndex(i, sliceSize)][ElementIndex(i, sliceSize)]
      {
        assert slices[SliceIndex(i, sliceSize)] == prev[SliceIndex(i, sliceSize)];
      }
    }

    /**
     * After growth, the elements below the old size are the old elements:
     * `before` is the element reading taken over `prev` before the growth,
     * and the arrays of `prev` were not written since.
     */
    lemma KeptElements(prev: seq<array<T>>, prevTotal: nat, before: seq<T>)
      requires Valid() && sliceSize > 0
      requires |prev| <= |slices| && slices[..|prev|] == prev && prevTotal <= total
      requires prevTotal <= SlotsIn(|prev|, sliceSize) && |before| == prevTotal
      requires forall i | 0 <= i < prevTotal && SliceIndex(i, sliceSize) < |prev| ::
        before[i] == prev[SliceIndex(i, sliceSize)][ElementIndex(i, sliceSize)]
      ensures Elements()[..prevTotal] == before
    {
      forall i | 0 <= i < prevTotal
        ensures Elements()[i] == before[i]
      {
        SliceInRange(i, sliceSize, |prev|);
        assert slices[SliceIndex(i, sliceSize)] == prev[SliceIndex(i, sliceSize)];
      }
    }

    /** Entries in the appended, filled slices read as the fill value. */
    lemma FilledElements(prevCount: nat, prevTotal: nat, fill: T)
      requires Valid() && sliceSize > 0 && prevCount <= |slices|
      requires forall k | prevCount <= k < |slices| :: slices[k][..] == seq(sliceSize, _ => fill)
      ensures forall i | 0 <= i < total && SliceIndex(i, sliceSize) >= prevCount :: Elements()[i] == fill
    {
      forall i | 0 <= i < total && SliceIndex(i, sliceSize) >= prevCount
        ensures Elements()[i] == fill
      {
        SliceInRange(i, sliceSize, |slices|);
        var k := SliceIndex(i, sliceSize);
        assert slices[k][..][ElementIndex(i, sliceSize)] == fill;
      }
    }

    /** The element reading of a shrunk vector agrees with the old slices. */
    lemma ShrunkElements(prev: seq<array<T>>, prevTotal: nat)
      requires Valid() && sliceSize > 0
      requires |slices| <= |prev| && slices == prev[..|slices|] && total <= prevTotal
      ensures forall i | 0 <= i < total ::
        SliceIndex(i, sliceSize) < |slices| &&
        Elements()[i] == prev[SliceIndex(i, sliceSize)][ElementIndex(i, sliceSize)]
    {
      forall i | 0 <= i < total
        ensures SliceIndex(i, sliceSize) < |slices|
        ensures Elements()[i] == prev[SliceIndex(i, sliceSize)][ElementIndex(i, sliceSize)]
      {
        SliceInRange(i, sliceSize, |slices|);
      }
    }

    function Begin(): Iterator<T>
      reads this
    {
      Iterator(0, this)
    }

    function End(): Iterator<T>
      reads this
    {
      Iterator(total, this)
    }
  }

  /** `StableVectorIterator`: an index and the vector it walks. */
  datatype Iterator<T(0)> = Iterator(index: nat, owner: StableVector<T>)
  {
    /** `operator==`: same index and same owner. */
    predicate Equal(rhs: Iterator<T>)
    {
      index == rhs.index && owner == rhs.owner
    }

    /** Prefix `operator++`. */
    function Next(): (r: Iterator<T>)
      ensures r.index == index + 1 && r.owner == owner
    {
      Iterator(index + 1, owner)
    }

    /** `operator*`: the owner's element at the index. */
    function Deref(): T
      requires owner.Valid() && owner.sliceSize > 0 && index < owner.total
      reads owner, owner.Repr()
    {
      owner.Get(index)
    }
  }

  /**
   * A range-for over the vector, from `begin()` until the iterator equals
   * `end()`: it visits the elements in index order, each once.
   */
  method Collect<T(0)>(sv: StableVector<T>) returns (visited: seq<T>)
    requires sv.Valid() && sv.sliceSize > 0
    ensures visited == sv.Elements()
  {
    visited := [];
    var it := sv.Begin();
    while !it.Equal(sv.End())
      invariant it.owner == sv && it.index <= sv.total
      invariant visited == sv.Elements()[..it.index]
      decreases sv.total - it.index
    {
      visited := visited + [it.Deref()];
      it := it.Next();
    }
  }

  /** Pushes `count` copies of v. */
  method PushMany(sv: StableVector<int>, v: int, count: nat)
    requires sv.Valid() && sv.sliceSize > 0 && sv.total + count + 1 < SIZE_T_LIMIT
    modifies sv, sv.Repr()
    ensures sv.Valid() && sv.sliceSize == old(sv.sliceSize) && sv.total == old(sv.total) + count
    ensures |sv.slices| >= old(|sv.slices|) && sv.slices[..old(|sv.slices|)] == old(sv.slices)
    ensures sv.Elements()[..old(sv.total)] == old(sv.Elements())
    ensures forall k | old(|sv.slices|) <= k < |sv.slices| :: fresh(sv.slices[k])
  {
    var i := 0;
    while i < count
      invariant 0 <= i <= count
      invariant sv.Valid() && sv.sliceSize == old(sv.sliceSize) && sv.total == old(sv.total) + i
      invariant |sv.slices| >= old(|sv.slices|) && sv.slices[..old(|sv.slices|)] == old(sv.slices)
      invariant forall k | old(|sv.slices|) <= k < |sv.slices| :: fresh(sv.slices[k])
      invariant sv.Elements()[..old(sv.total)] == old(sv.Elements())
    {
      ghost var before := sv.Elements();
      ghost var slicesBefore := sv.slices;
      sv.PushBack(v);
      assert sv.Elements()[..old(sv.total)] == before[..old(sv.total)];
      assert sv.slices[..old(|sv.slices|)] == slicesBefore[..old(|sv.slices|)];
      i := i + 1;
    }
  }

  /**
   * With slices of 3, the slice holding element 2 is the same array after
   * ten more pushes and after shrinking back to 3 elements.
   */
  method SmallSliceSizeKeepsAddress() returns (afterPush: bool, afterShrink: bool)
    ensures afterPush && afterShrink
  {
    var sv := new StableVector<int>(3, 8);
    PushMany(sv, 1, 3);
    var slice := sv.slices[SliceIndex(2, 3)];
    PushMany(sv, 2, 10);
    afterPush := sv.slices[SliceIndex(2, 3)] == slice;
    RequiredSlicesMeaning(3, 3);
    sv.Resize(3);
    afterShrink := sv.slices[SliceIndex(2, 3)] == slice;
  }

  /** `resize(3, 23)` on a new vector gives three copies of 23. */
  method ResizeGrowFill() returns (elements: seq<int>)
    ensures elements == [23, 23, 23]
  {
    var sv := new StableVector<int>.Default();
    sv.ResizeFill(3, 23);
    elements := Collect(sv);
  }

  /**
   * Growing with a fill value inside a slice already allocated does not
   * fill: after [7, 8], `resize(1)` and `resize(3, 23)`, element 1 is
   * still 8.
   */
  method ResizeFillKeepsOldEntries() returns (e1: int)
    ensures e1 == 8
  {
    var sv := new StableVector<int>(4, 8);
    sv.PushBack(7);
    sv.PushBack(8);
    assert sv.Elements() == [7, 8];
    ghost var slice0 := sv.slices[0];
    assert slice0[1] == 8 by { assert sv.Elements()[1] == 8; }
    RequiredSlicesMeaning(1, 4);
    sv.Resize(1);
    sv.ResizeFill(3, 23);
    e1 := sv.Get(1);
  }

  /**
   * `resize(0)` frees no slice when slices hold more than one element,
   * because `slice_index(0 - 1)` wraps to a huge value; with slices of one
   * element the count wraps again and every slice is freed.
   */
  method ResizeZero() returns (keptWide: nat, keptNarrow: nat)
    ensures keptWide == 2 && keptNarrow == 0
  {
    var wide := new StableVector<int>(3, 8);
    assert RequiredSlices(5, 3) == 2 by {
      assert (5 + SIZE_T_LIMIT - 1) % SIZE_T_LIMIT == 4;
      assert SliceIndex(4, 3) == SliceIndex(1, 3) + 1;
    }
    wide.Resize(5);
    RequiredSlicesMeaning(0, 3);
    wide.Resize(0);
    keptWide := |wide.slices|;
    var narrow := new StableVector<int>(1, 8);
    narrow.Resize(5);
    RequiredSlicesMeaning(0, 1);
    narrow.Resize(0);
    keptNarrow := |narrow.slices|;
  }
}
