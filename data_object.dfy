/**
 * `Object`, the value the C++ RBDEF reader builds: a tag and a union of
 * payloads. The union is kept as a record with one slot per member. Only
 * the slot(s) the tag names are meaningful (the value `Active` reads);
 * what the others hold is not specified: in the union they share storage
 * with the selected member, so a record slot stands for no defined bits.
 * Slots nothing has written yet are fixed here to false, zero or empty.
 *
 * A double is never computed with: it is raw bits, a float widened to a
 * double, or the double nearest to an integer (the conversion
 * `result.float64 = int64` performs).
 */
module DataObject {
  import opened ByteOrder

  const INT64_LIMIT: int := 0x8000_0000_0000_0000

  /** `long long`. */
  type Int64 = n: int | -INT64_LIMIT <= n < INT64_LIMIT

  datatype DataType = Null | Boolean | IntOrFloat | Float | String | Array | Dictionary

  datatype Double =
    | DoubleBits(bits: bv64)
    | WidenedFloat(single: bv32)
    | NearestTo(n: int)

  datatype Object = Object(tag: DataType, boolean: bool, int64: Int64, float64: Double,
                           bytes: seq<Byte>, elements: seq<Object>, entries: map<seq<Byte>, Object>)

  /** What an object holds, as its tag reads it. */
  datatype Value =
    | NullValue
    | BoolValue(b: bool)
    | NumberValue(int64: Int64, float64: Double)
    | FloatValue(float64: Double)
    | StringValue(bytes: seq<Byte>)
    | ArrayValue(items: seq<Value>)
    | DictionaryValue(entries: map<seq<Byte>, Value>)

  /** The payload the tag selects; a Float's int64 slot is not part of it (make_float never writes it). */
  function Active(o: Object): Value
  {
    match o.tag
    case Null => NullValue
    case Boolean => BoolValue(o.boolean)
    case IntOrFloat => NumberValue(o.int64, o.float64)
    case Float => FloatValue(o.float64)
    case String => StringValue(o.bytes)
    case Array => ArrayValue(seq(|o.elements|, i requires 0 <= i < |o.elements| => Active(o.elements[i])))
    case Dictionary => DictionaryValue(map k | k in o.entries :: Active(o.entries[k]))
  }

  /** Every slot the tag does not select is blank, in o and in everything it holds. */
  predicate Canonical(o: Object)
  {
    (o.tag != Boolean ==> !o.boolean) &&
    (o.tag != IntOrFloat && o.tag != Float ==> o.int64 == 0 && o.float64 == NearestTo(0)) &&
    (o.tag != String ==> o.bytes == []) &&
    (o.tag != Array ==> o.elements == []) &&
    (o.tag != Dictionary ==> o.entries == map[]) &&
    (forall i | 0 <= i < |o.elements| :: Canonical(o.elements[i])) &&
    (forall k | k in o.entries :: Canonical(o.entries[k]))
  }

  /**
   * `Object(DataType)`: the tag set and a string, array or dictionary
   * payload constructed empty; `Object()` is `Blank(Null)`.
   */
  function Blank(tag: DataType): (r: Object)
    ensures r.tag == tag && Canonical(r)
    ensures tag == String ==> Active(r) == StringValue([])
  {
    Object(tag, false, 0, NearestTo(0), [], [], map[])
  }

  /**
   * The copy constructor: the tag, then only the selected payload, every
   * element of an array or dictionary payload copied in turn.
   */
  function Copy(o: Object): (r: Object)
    ensures r.tag == o.tag && Active(r) == Active(o)
    ensures Canonical(r)
  {
    var blank := Blank(o.tag);
    match o.tag
    case Null => blank
    case Boolean => blank.(boolean := o.boolean)
    case IntOrFloat => blank.(int64 := o.int64, float64 := o.float64)
    case Float => blank.(int64 := o.int64, float64 := o.float64)
    case String => blank.(bytes := o.bytes)
    case Array =>
      var items := seq(|o.elements|, i requires 0 <= i < |o.elements| => Copy(o.elements[i]));
      ActiveItemsAgree(items, o.elements);
      blank.(elements := items)
    case Dictionary =>
      var entries := map k | k in o.entries :: Copy(o.entries[k]);
      ActiveEntriesAgree(entries, o.entries);
      blank.(entries := entries)
  }

  /** Two arrays whose elements are pairwise alike read as the same array. */
  lemma ActiveItemsAgree(xs: seq<Object>, ys: seq<Object>)
    requires |xs| == |ys| && forall i | 0 <= i < |xs| :: Active(xs[i]) == Active(ys[i])
    ensures Active(Blank(Array).(elements := xs)) == Active(Blank(Array).(elements := ys))
  {
    var u := seq(|xs|, i requires 0 <= i < |xs| => Active(xs[i]));
    var v := seq(|ys|, i requires 0 <= i < |ys| => Active(ys[i]));
    assert u == v;
  }

  /** Two dictionaries with the same keys whose values are pairwise alike read as the same dictionary. */
  lemma ActiveEntriesAgree(xs: map<seq<Byte>, Object>, ys: map<seq<Byte>, Object>)
    requires xs.Keys == ys.Keys && forall k | k in xs :: Active(xs[k]) == Active(ys[k])
    ensures Active(Blank(Dictionary).(entries := xs)) == Active(Blank(Dictionary).(entries := ys))
  {
    var u := map k | k in xs :: Active(xs[k]);
    var v := map k | k in ys :: Active(ys[k]);
    assert u == v;
  }

  /** `std::vector<Object>`'s copy: each element copy-constructed, in order. */
  function CopyItems(items: seq<Object>): (r: seq<Object>)
    ensures |r| == |items|
    ensures forall i | 0 <= i < |r| :: r[i] == Copy(items[i])
  {
    seq(|items|, i requires 0 <= i < |items| => Copy(items[i]))
  }

  /** `std::unordered_map<std::string, Object>`'s copy: the same keys, each value copy-constructed. */
  function CopyEntries(entries: map<seq<Byte>, Object>): (r: map<seq<Byte>, Object>)
    ensures r.Keys == entries.Keys
    ensures forall k | k in r :: r[k] == Copy(entries[k])
  {
    map k | k in entries :: Copy(entries[k])
  }

  /** Copying an object whose unselected slots are already blank changes nothing. */
  lemma CopyOfCanonical(o: Object)
    requires Canonical(o)
    ensures Copy(o) == o
  {
    match o.tag
    case Array =>
      forall i | 0 <= i < |o.elements|
        ensures Copy(o.elements[i]) == o.elements[i]
      {
        CopyOfCanonical(o.elements[i]);
      }
      assert Copy(o).elements == o.elements;
    case Dictionary =>
      forall k | k in o.entries
        ensures Copy(o.entries[k]) == o.entries[k]
      {
        CopyOfCanonical(o.entries[k]);
      }
      assert Copy(o).entries == o.entries;
    case _ =>
  }

  /**
   * A copy can differ from the original: the slots the tag does not
   * select are not copied.
   */
  lemma CopyDropsUnselectedSlots()
    ensures var o := Object(Null, true, 7, NearestTo(7), [1], [], map[]);
      Copy(o) != o && Active(Copy(o)) == Active(o)
  {
  }

  /**
   * The destructor: the string, array or dictionary payload is destroyed.
   * Its slot is dead memory afterwards; here it reads as empty.
   */
  function Destroyed(o: Object): (r: Object)
    ensures r.tag == o.tag && r.boolean == o.boolean && r.int64 == o.int64 && r.float64 == o.float64
    ensures r.bytes == [] && r.elements == [] && r.entries == map[]
  {
    o.(bytes := [], elements := [], entries := map[])
  }

  /** The tag of `other` and its selected payload written over the storage `dest`. */
  function WriteFrom(dest: Object, other: Object): (r: Object)
    ensures r.tag == other.tag && Active(r) == Active(other)
  {
    var base := dest.(tag := other.tag);
    match other.tag
    case Null => base
    case Boolean => base.(boolean := other.boolean)
    case IntOrFloat => base.(int64 := other.int64, float64 := other.float64)
    case Float => base.(int64 := other.int64, float64 := other.float64)
    case String => base.(bytes := other.bytes)
    case Array =>
      var items := CopyItems(other.elements);
      ActiveItemsAgree(items, other.elements);
      base.(elements := items)
    case Dictionary =>
      var entries := CopyEntries(other.entries);
      ActiveEntriesAgree(entries, other.entries);
      base.(entries := entries)
  }

  /**
   * `a = b` for two distinct objects: a's payload is destroyed, then b's
   * tag and selected payload are written into a. A string is copied as it
   * is; an array or dictionary element by element with the copy constructor.
   */
  function Assigned(a: Object, b: Object): (r: Object)
    ensures r.tag == b.tag && Active(r) == Active(b)
    ensures b.tag == String ==> r.bytes == b.bytes
    ensures b.tag == Array ==> r.elements == CopyItems(b.elements)
    ensures b.tag == Dictionary ==> r.entries == CopyEntries(b.entries)
  {
    WriteFrom(Destroyed(a), b)
  }

  /** Assigning into a default-constructed object makes a copy. */
  lemma AssignedIntoDefault(b: Object)
    ensures Assigned(Blank(Null), b) == Copy(b)
  {
  }

  /**
   * The outcome of an assignment: the object it leaves, or Undefined when
   * it reads memory after a destructor has run.
   */
  datatype Assignment = Defined(result: Object) | Undefined

  /**
   * `a = a` as written: a's payload is destroyed first and then read back
   * as the value to copy. For a string, array or dictionary that read is
   * of a destroyed member, which is undefined behaviour; for the scalar
   * tags the same bits are written back.
   */
  function SelfAssignedAsWritten(a: Object): (r: Assignment)
    ensures r.Undefined? <==> a.tag in {String, Array, Dictionary}
    ensures r.Defined? ==> Active(r.result) == Active(a) && r.result.tag == a.tag
  {
    if a.tag in {String, Array, Dictionary} then Undefined
    else
      var d := Destroyed(a);
      Defined(WriteFrom(d, d))
  }

  /**
   * The smallest instance: a one-byte string assigned to itself reads a
   * destroyed string, while the guarded assignment keeps it.
   */
  lemma SelfAssignmentReadsDestroyed()
    ensures SelfAssignedAsWritten(MakeString([1])).Undefined?
    ensures Active(AssignedChecked(MakeString([1]), MakeString([1]), true)) == StringValue([1])
  {
  }

  /**
   * `operator=` with the usual `this == &other` guard: an assignment of an
   * object to itself leaves it as it is, and any other assignment is
   * `Assigned`.
   */
  function AssignedChecked(a: Object, b: Object, same: bool): (r: Object)
    requires same ==> a == b
    ensures Active(r) == Active(b) && r.tag == b.tag
    ensures same ==> r == a
  {
    if same then a else Assigned(a, b)
  }

  /** `make_null()`. */
  function MakeNull(): (r: Object)
    ensures Active(r) == NullValue && r.tag == Null && Canonical(r)
  {
    Blank(Null)
  }

  /** `make_boolean(b)`. */
  function MakeBoolean(b: bool): (r: Object)
    ensures Active(r) == BoolValue(b) && r.tag == Boolean && Canonical(r)
  {
    Blank(Boolean).(boolean := b)
  }

  /** `make_int(n)`: both the integer and the nearest double are set. */
  function MakeInt(n: Int64): (r: Object)
    ensures Active(r) == NumberValue(n, NearestTo(n)) && r.tag == IntOrFloat && Canonical(r)
  {
    Blank(IntOrFloat).(int64 := n, float64 := NearestTo(n))
  }

  /** `make_float(d)`: only the double is set. */
  function MakeFloat(d: Double): (r: Object)
    ensures Active(r) == FloatValue(d) && r.tag == Float && Canonical(r)
  {
    Blank(Float).(float64 := d)
  }

  /** `make_string(s)`. */
  function MakeString(s: seq<Byte>): (r: Object)
    ensures Active(r) == StringValue(s) && r.tag == String && Canonical(r)
  {
    Blank(String).(bytes := s)
  }

  /** `make_array(items)`: the array payload is a copy of items. */
  function MakeArray(items: seq<Object>): (r: Object)
    ensures r.tag == Array && Canonical(r) && |r.elements| == |items|
    ensures Active(r) == ArrayValue(seq(|items|, i requires 0 <= i < |items| => Active(items[i])))
  {
    var copied := CopyItems(items);
    ActiveItemsAgree(copied, items);
    Blank(Array).(elements := copied)
  }

  /** `make_dictionary(d)`: the dictionary payload is a copy of d. */
  function MakeDictionary(d: map<seq<Byte>, Object>): (r: Object)
    ensures r.tag == Dictionary && Canonical(r) && r.entries.Keys == d.Keys
    ensures Active(r) == DictionaryValue(map k | k in d :: Active(d[k]))
  {
    var copied := CopyEntries(d);
    ActiveEntriesAgree(copied, d);
    Blank(Dictionary).(entries := copied)
  }

  /** Arrays and dictionaries of canonical objects keep them as they are. */
  lemma MakeKeepsCanonical(items: seq<Object>, d: map<seq<Byte>, Object>)
    requires forall i | 0 <= i < |items| :: Canonical(items[i])
    requires forall k | k in d :: Canonical(d[k])
    ensures MakeArray(items).elements == items
    ensures MakeDictionary(d).entries == d
  {
    forall i | 0 <= i < |items|
      ensures CopyItems(items)[i] == items[i]
    {
      CopyOfCanonical(items[i]);
    }
    forall k | k in d
      ensures CopyEntries(d)[k] == d[k]
    {
      CopyOfCanonical(d[k]);
    }
  }
}
