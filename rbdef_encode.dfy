/**
 * The RBDEF encoder (build-server/rbdef/encode.py): every value is one
 * discriminator byte followed by its payload; lengths and counts use a
 * small (4-byte) or large (8-byte) big-endian form.
 */
module RbdefEncode {
  import opened Wrappers
  import opened ByteOrder
  import opened PyValues

  // Discriminator bytes (ASCII).
  const TAG_NULL: Byte := 110         // 'n'
  const TAG_TRUE: Byte := 116         // 't'
  const TAG_FALSE: Byte := 102        // 'f'
  const TAG_INT32: Byte := 105        // 'i'
  const TAG_INT64: Byte := 73         // 'I'
  const TAG_FLOAT32: Byte := 112      // 'p'
  const TAG_FLOAT64: Byte := 80       // 'P'
  const TAG_STR_SMALL: Byte := 115    // 's'
  const TAG_STR_LARGE: Byte := 83     // 'S'
  const TAG_ARRAY_SMALL: Byte := 97   // 'a'
  const TAG_ARRAY_LARGE: Byte := 65   // 'A'
  const TAG_DICT_SMALL: Byte := 100   // 'd'
  const TAG_DICT_LARGE: Byte := 68    // 'D'

  const TWO_31: int := 0x8000_0000
  const TWO_32: int := 0x1_0000_0000
  const TWO_63: int := 0x8000_0000_0000_0000
  const TWO_64: int := 0x1_0000_0000_0000_0000

  datatype EncodeError =
    /** ValueError('Int out of range'). */
    | IntOutOfRange(n: int)
    /** ValueError('Can not serialize'). */
    | CannotSerialize
    /** struct.error: a length that does not fit '>Q'. */
    | LengthTooLarge

  /** No float occurs anywhere in v (the float encoder is outside this model). */
  predicate NoFloats(v: PyValue)
    decreases v, 1
  {
    match v
    case PyFloat(_) => false
    case PyList(items) => NoFloatsItems(items)
    case PyTuple(items) => NoFloatsItems(items)
    case PyDict(entries) => NoFloatsEntries(entries)
    case _ => true
  }

  predicate NoFloatsItems(items: seq<PyValue>)
    decreases items, 0
  {
    |items| > 0 ==> NoFloats(items[0]) && NoFloatsItems(items[1..])
  }

  predicate NoFloatsEntries(entries: seq<(PyValue, PyValue)>)
    decreases entries, 0
  {
    |entries| > 0 ==>
      var pair := entries[0];
      assert pair in entries && pair.0 < pair && pair.1 < pair;
      NoFloats(pair.0) && NoFloats(pair.1) && NoFloatsEntries(entries[1..])
  }

  /**
   * A length or count: below 2^32 the small tag and 4 bytes,
   * otherwise the large tag and 8 bytes.
   */
  function DumpUint(small: Byte, large: Byte, n: nat): (r: Result<seq<Byte>, EncodeError>)
    ensures r.Success? <==> n < TWO_64
    ensures r.Success? ==> |r.value| == (if n < TWO_32 then 5 else 9)
    ensures r.Success? ==> r.value[0] == (if n < TWO_32 then small else large)
    ensures r.Success? ==> DecodeUnsigned(r.value[1..]) == n
  {
    Pow256Values();
    if n < TWO_32 then Success([small] + EncodeUnsigned(n, 4))
    else if n < TWO_64 then Success([large] + EncodeUnsigned(n, 8))
    else Failure(LengthTooLarge)
  }

  /**
   * An integer: strictly inside (-2^31, 2^31) as 'i' plus 4 bytes, strictly
   * inside (-2^63, 2^63) as 'I' plus 8 bytes, otherwise ValueError.
   */
  function DumpInt(n: int): (r: Result<seq<Byte>, EncodeError>)
    ensures r.Success? <==> -TWO_63 < n < TWO_63
    ensures r.Failure? ==> r.error == IntOutOfRange(n)
    ensures r.Success? ==> |r.value| == (if -TWO_31 < n < TWO_31 then 5 else 9)
    ensures r.Success? ==> r.value[0] == (if -TWO_31 < n < TWO_31 then TAG_INT32 else TAG_INT64)
    ensures r.Success? ==> DecodeSigned(r.value[1..]) == n
  {
    Pow256Values();
    if n < TWO_31 && n > -TWO_31 then Success([TAG_INT32] + EncodeSigned(n, 4))
    else if n < TWO_63 && n > -TWO_63 then Success([TAG_INT64] + EncodeSigned(n, 8))
    else Failure(IntOutOfRange(n))
  }

  /** A byte string: its length, then the bytes verbatim. */
  function DumpStr(bytes: seq<Byte>): (r: Result<seq<Byte>, EncodeError>)
    ensures r.Success? <==> |bytes| < TWO_64
    ensures r.Success? ==> var h := if |bytes| < TWO_32 then 5 else 9;
      |r.value| == h + |bytes| && r.value[0] == (if |bytes| < TWO_32 then TAG_STR_SMALL else TAG_STR_LARGE) &&
      DecodeUnsigned(r.value[1..h]) == |bytes| && r.value[h..] == bytes
  {
    var header := DumpUint(TAG_STR_SMALL, TAG_STR_LARGE, |bytes|);
    if header.Failure? then Failure(header.error)
    else
      var r := header.value + bytes;
      assert r[1..|header.value|] == header.value[1..];
      Success(r)
  }

  /** Serialize v the way `dump` dispatches: None, bool before int, int, str, unicode, list/tuple, dict, else ValueError. */
  function Dump(v: PyValue): (r: Result<seq<Byte>, EncodeError>)
    requires NoFloats(v)
    ensures r.Success? ==> |r.value| > 0
    decreases v, 1
  {
    match v
    case PyNone => Success([TAG_NULL])
    case PyBool(b) => Success([if b then TAG_TRUE else TAG_FALSE])
    case PyInt(n) => DumpInt(n)
    case PyLong(_) => Failure(CannotSerialize)
    case PyStr(bytes) => DumpStr(bytes)
    case PyUnicode(text) => DumpStr(Utf8(text))
    case PyList(items) => DumpArray(items)
    case PyTuple(items) => DumpArray(items)
    case PyDict(entries) => DumpDict(entries)
    case PyOther => Failure(CannotSerialize)
  }

  /** The elements one after another, stopping at the first that cannot be written. */
  function DumpItems(items: seq<PyValue>): (r: Result<seq<Byte>, EncodeError>)
    requires NoFloatsItems(items)
    decreases items, 0
  {
    if |items| == 0 then Success([])
    else
      var head := Dump(items[0]);
      if head.Failure? then Failure(head.error)
      else
        var tail := DumpItems(items[1..]);
        if tail.Failure? then Failure(tail.error) else Success(head.value + tail.value)
  }

  /** Key then value for every pair, in `items()` order. */
  function DumpEntries(entries: seq<(PyValue, PyValue)>): (r: Result<seq<Byte>, EncodeError>)
    requires NoFloatsEntries(entries)
    decreases entries, 0
  {
    if |entries| == 0 then Success([])
    else
      var pair := entries[0];
      assert pair in entries && pair.0 < pair && pair.1 < pair;
      var key := Dump(pair.0);
      if key.Failure? then Failure(key.error)
      else
        var value := Dump(pair.1);
        if value.Failure? then Failure(value.error)
        else
          var tail := DumpEntries(entries[1..]);
          if tail.Failure? then Failure(tail.error) else Success(key.value + value.value + tail.value)
  }

  function DumpArray(items: seq<PyValue>): (r: Result<seq<Byte>, EncodeError>)
    requires NoFloatsItems(items)
    decreases items, 2
  {
    var header := DumpUint(TAG_ARRAY_SMALL, TAG_ARRAY_LARGE, |items|);
    if header.Failure? then Failure(header.error)
    else
      var body := DumpItems(items);
      if body.Failure? then Failure(body.error) else Success(header.value + body.value)
  }

  function DumpDict(entries: seq<(PyValue, PyValue)>): (r: Result<seq<Byte>, EncodeError>)
    requires NoFloatsEntries(entries)
    decreases entries, 2
  {
    var header := DumpUint(TAG_DICT_SMALL, TAG_DICT_LARGE, |entries|);
    if header.Failure? then Failure(header.error)
    else
      var body := DumpEntries(entries);
      if body.Failure? then Failure(body.error) else Success(header.value + body.value)
  }

  /** A non-empty sequence is written as its first element, then the rest. */
  lemma DumpItemsCons(items: seq<PyValue>)
    requires NoFloatsItems(items) && |items| > 0
    requires DumpItems(items).Success?
    ensures NoFloats(items[0]) && NoFloatsItems(items[1..])
    ensures Dump(items[0]).Success? && DumpItems(items[1..]).Success?
    ensures DumpItems(items).value == Dump(items[0]).value + DumpItems(items[1..]).value
  {
  }

  /** A non-empty sequence of pairs is written as the first key, its value, then the rest. */
  lemma DumpEntriesCons(entries: seq<(PyValue, PyValue)>)
    requires NoFloatsEntries(entries) && |entries| > 0
    requires DumpEntries(entries).Success?
    ensures NoFloats(entries[0].0) && NoFloats(entries[0].1) && NoFloatsEntries(entries[1..])
    ensures Dump(entries[0].0).Success? && Dump(entries[0].1).Success? && DumpEntries(entries[1..]).Success?
    ensures DumpEntries(entries).value == Dump(entries[0].0).value + Dump(entries[0].1).value + DumpEntries(entries[1..]).value
  {
  }

  /**
   * What `dump` accepts, stated without the encoder: no `long` and no
   * value of another type, every int strictly inside (-2^63, 2^63), and
   * every length and count below 2^64.
   */
  predicate Serializable(v: PyValue)
    decreases v, 1
  {
    match v
    case PyNone => true
    case PyBool(_) => true
    case PyInt(n) => -TWO_63 < n < TWO_63
    case PyLong(_) => false
    case PyFloat(_) => true
    case PyStr(bytes) => |bytes| < TWO_64
    case PyUnicode(text) => |Utf8(text)| < TWO_64
    case PyList(items) => |items| < TWO_64 && SerializableItems(items)
    case PyTuple(items) => |items| < TWO_64 && SerializableItems(items)
    case PyDict(entries) => |entries| < TWO_64 && SerializableEntries(entries)
    case PyOther => false
  }

  predicate SerializableItems(items: seq<PyValue>)
    decreases items, 0
  {
    forall i | 0 <= i < |items| :: Serializable(items[i])
  }

  predicate SerializableEntries(entries: seq<(PyValue, PyValue)>)
    decreases entries, 0
  {
    forall i | 0 <= i < |entries| ::
      assert entries[i] in entries && entries[i].0 < entries[i] && entries[i].1 < entries[i];
      Serializable(entries[i].0) && Serializable(entries[i].1)
  }

  /** `dump` succeeds exactly on the values Serializable describes. */
  lemma {:induction false} DumpSucceeds(v: PyValue)
    requires NoFloats(v)
    ensures Dump(v).Success? <==> Serializable(v)
    decreases v, 1
  {
    match v
    case PyList(items) => DumpItemsSucceed(items);
    case PyTuple(items) => DumpItemsSucceed(items);
    case PyDict(entries) => DumpEntriesSucceed(entries);
    case _ =>
  }

  lemma {:induction false} DumpItemsSucceed(items: seq<PyValue>)
    requires NoFloatsItems(items)
    ensures DumpItems(items).Success? <==> SerializableItems(items)
    decreases items, 0
  {
    if |items| > 0 {
      DumpSucceeds(items[0]);
      DumpItemsSucceed(items[1..]);
      assert forall i | 1 <= i < |items| :: items[i] == items[1..][i - 1];
    }
  }

  lemma {:induction false} DumpEntriesSucceed(entries: seq<(PyValue, PyValue)>)
    requires NoFloatsEntries(entries)
    ensures DumpEntries(entries).Success? <==> SerializableEntries(entries)
    decreases entries, 0
  {
    if |entries| > 0 {
      var pair := entries[0];
      assert pair in entries && pair.0 < pair && pair.1 < pair;
      DumpSucceeds(pair.0);
      DumpSucceeds(pair.1);
      DumpEntriesSucceed(entries[1..]);
      assert forall i | 1 <= i < |entries| :: entries[i] == entries[1..][i - 1];
    }
  }

  /** `dumps`: the bytes `dump` writes, or the exception it raises; it fails exactly on what cannot be serialized. */
  function Dumps(v: PyValue): (r: Result<seq<Byte>, EncodeError>)
    requires NoFloats(v)
    ensures r.Success? <==> Serializable(v)
    ensures r.Success? ==> |r.value| > 0
  {
    DumpSucceeds(v);
    Dump(v)
  }
}
