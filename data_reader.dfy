/**
 * The C++ RBDEF reader: `read_from(source, from, &end)` decodes the value
 * starting at byte `from` and reports where it ended; arrays and
 * dictionaries read their elements one after another, each starting
 * where the previous one ended. The source checks little: `from` must be
 * inside the string and the tag known (both asserted), dictionary keys
 * must be strings and distinct (asserted), and a number or string that
 * runs past the end is read out of bounds. Each of these is a Failure
 * here.
 */
module DataReader {
  import opened Wrappers
  import opened ByteOrder
  import opened PyValues
  import opened RbdefEncode
  import opened DataObject

  datatype ReadError =
    /** `assert(from < source.size())`. */
    | PastEnd
    /** `assert(false && "Unknown byte in RBDEF")`. */
    | UnknownTag(tag: Byte)
    /** A number or string that runs past the end of the source (read out of bounds by the source). */
    | Truncated
    /** `assert(key.type == DataType::String)`. */
    | KeyNotString
    /** `assert(dictionary.count(key.string) == 0)`. */
    | DuplicateKey

  /** The bytes of e occur in source starting at from. */
  predicate At(source: seq<Byte>, from: nat, e: seq<Byte>)
  {
    from + |e| <= |source| && source[from..from + |e|] == e
  }

  /** `read_number<T>` for an unsigned T of `width` bytes: the big-endian value and the position after it. */
  function ReadUnsigned(source: seq<Byte>, from: nat, width: nat): (r: Result<(nat, nat), ReadError>)
    ensures r.Success? <==> from + width <= |source|
    ensures r.Success? ==> r.value.1 == from + width && r.value.0 < Pow256(width)
    ensures r.Failure? ==> r.error == Truncated
  {
    if from + width > |source| then Failure(Truncated)
    else Success((DecodeUnsigned(source[from..from + width]), from + width))
  }

  /** `read_number<T>` for a signed T: the same bytes read in two's complement. */
  function ReadSigned(source: seq<Byte>, from: nat, width: nat): (r: Result<(int, nat), ReadError>)
    requires width > 0
    ensures r.Success? <==> from + width <= |source|
    ensures r.Success? ==> r.value.1 == from + width && -(Pow256(width) / 2) <= r.value.0 < Pow256(width) / 2
    ensures r.Failure? ==> r.error == Truncated
  {
    if from + width > |source| then Failure(Truncated)
    else Success((DecodeSigned(source[from..from + width]), from + width))
  }

  /** `read_string<T>`: a length of `width` bytes, then that many bytes taken as they are. */
  function ReadString(source: seq<Byte>, from: nat, width: nat): (r: Result<(seq<Byte>, nat), ReadError>)
    ensures r.Success? ==> from + width + |r.value.0| == r.value.1 <= |source|
  {
    match ReadUnsigned(source, from, width)
    case Failure(e) => Failure(e)
    case Success((length, pos)) =>
      if pos + length > |source| then Failure(Truncated)
      else Success((source[pos..pos + length], pos + length))
  }

  /** The branches of `read_from` for tags that hold no nested object, and an unknown tag. */
  function ReadScalar(source: seq<Byte>, from: nat): (r: Result<(Object, nat), ReadError>)
    requires from < |source|
    ensures r.Success? ==> from < r.value.1 <= |source|
    ensures r.Success? ==> r.value.0.tag !in {Array, Dictionary}
  {
    var tag := source[from];
    if tag == TAG_NULL then Success((MakeNull(), from + 1))
    else if tag == TAG_FALSE then Success((MakeBoolean(false), from + 1))
    else if tag == TAG_TRUE then Success((MakeBoolean(true), from + 1))
    else if tag == TAG_INT32 || tag == TAG_INT64 then
      Pow256Values();
      match ReadSigned(source, from + 1, if tag == TAG_INT32 then 4 else 8)
      case Failure(e) => Failure(e)
      case Success((n, end)) => Success((MakeInt(n), end))
    else if tag == TAG_FLOAT32 then
      Pow256Values();
      match ReadUnsigned(source, from + 1, 4)
      case Failure(e) => Failure(e)
      case Success((bits, end)) => Success((MakeFloat(WidenedFloat(bits as bv32)), end))
    else if tag == TAG_FLOAT64 then
      Pow256Values();
      match ReadUnsigned(source, from + 1, 8)
      case Failure(e) => Failure(e)
      case Success((bits, end)) => Success((MakeFloat(DoubleBits(bits as bv64)), end))
    else if tag == TAG_STR_SMALL || tag == TAG_STR_LARGE then
      match ReadString(source, from + 1, if tag == TAG_STR_SMALL then 4 else 8)
      case Failure(e) => Failure(e)
      case Success((s, end)) => Success((MakeString(s), end))
    else Failure(UnknownTag(tag))
  }

  /** `read_array<T>`: a count of `width` bytes, then that many objects. */
  function ReadArray(source: seq<Byte>, from: nat, width: nat): (r: Result<(seq<Object>, nat), ReadError>)
    requires from <= |source| && width > 0
    ensures r.Success? ==> from < r.value.1 <= |source|
    decreases |source| - from, 2
  {
    match ReadUnsigned(source, from, width)
    case Failure(e) => Failure(e)
    case Success((n, pos)) => ReadItems(source, pos, n, [])
  }

  /** `read_dictionary<T>`: a count of `width` bytes, then that many key/value pairs. */
  function ReadDictionary(source: seq<Byte>, from: nat, width: nat): (r: Result<(map<seq<Byte>, Object>, nat), ReadError>)
    requires from <= |source| && width > 0
    ensures r.Success? ==> from < r.value.1 <= |source|
    decreases |source| - from, 3
  {
    match ReadUnsigned(source, from, width)
    case Failure(e) => Failure(e)
    case Success((n, pos)) => ReadEntries(source, pos, n, map[])
  }

  /** `read_from(source, from, &end)`: the object at `from` and the position just after it. */
  function ReadFrom(source: seq<Byte>, from: nat): (r: Result<(Object, nat), ReadError>)
    ensures r.Success? ==> from < r.value.1 <= |source|
    decreases |source| - from, 0
  {
    if from >= |source| then Failure(PastEnd)
    else
      var tag := source[from];
      if tag == TAG_ARRAY_SMALL || tag == TAG_ARRAY_LARGE then
        match ReadArray(source, from + 1, if tag == TAG_ARRAY_SMALL then 4 else 8)
        case Failure(e) => Failure(e)
        case Success((items, end)) => Success((MakeArray(items), end))
      else if tag == TAG_DICT_SMALL || tag == TAG_DICT_LARGE then
        match ReadDictionary(source, from + 1, if tag == TAG_DICT_SMALL then 4 else 8)
        case Failure(e) => Failure(e)
        case Success((entries, end)) => Success((MakeDictionary(entries), end))
      else ReadScalar(source, from)
  }

  /** The loop of `read_array`: n more objects appended to `items`, each read where the previous ended. */
  function ReadItems(source: seq<Byte>, pos: nat, n: nat, items: seq<Object>): (r: Result<(seq<Object>, nat), ReadError>)
    requires pos <= |source|
    ensures r.Success? ==> pos <= r.value.1 <= |source| && |r.value.0| == |items| + n
    decreases |source| - pos, 1, n
  {
    if n == 0 then Success((items, pos))
    else
      match ReadFrom(source, pos)
      case Failure(e) => Failure(e)
      case Success((o, end)) => ReadItems(source, end, n - 1, items + [o])
  }

  /**
   * One pass of `read_dictionary`'s loop: a key that must be a string not
   * stored yet, then the value read after it and stored through
   * `dictionary[key] = value`.
   */
  function ReadEntry(source: seq<Byte>, pos: nat, entries: map<seq<Byte>, Object>)
    : (r: Result<(map<seq<Byte>, Object>, nat), ReadError>)
    ensures r.Success? ==> pos < r.value.1 <= |source|
    decreases |source| - pos, 1
  {
    match ReadFrom(source, pos)
    case Failure(e) => Failure(e)
    case Success((key, afterKey)) =>
      if key.tag != String then Failure(KeyNotString)
      else if key.bytes in entries then Failure(DuplicateKey)
      else
        match ReadFrom(source, afterKey)
        case Failure(e) => Failure(e)
        case Success((value, end)) => Success((entries[key.bytes := Assigned(MakeNull(), value)], end))
  }

  /** The loop of `read_dictionary`: n more key/value pairs stored into `entries`. */
  function ReadEntries(source: seq<Byte>, pos: nat, n: nat, entries: map<seq<Byte>, Object>)
    : (r: Result<(map<seq<Byte>, Object>, nat), ReadError>)
    requires pos <= |source|
    ensures r.Success? ==> pos <= r.value.1 <= |source|
    decreases |source| - pos, 2, n
  {
    if n == 0 then Success((entries, pos))
    else
      match ReadEntry(source, pos, entries)
      case Failure(e) => Failure(e)
      case Success((next, end)) => ReadEntries(source, end, n - 1, next)
  }

  /** One pass of `read_array`'s loop: the next object is appended and reading goes on after it. */
  lemma ItemsStep(source: seq<Byte>, pos: nat, n: nat, items: seq<Object>)
    requires pos <= |source| && n > 0 && ReadFrom(source, pos).Success?
    ensures ReadItems(source, pos, n, items)
         == ReadItems(source, ReadFrom(source, pos).value.1, n - 1, items + [ReadFrom(source, pos).value.0])
  {
  }

  /** One pass of `read_dictionary`'s loop stores one pair and reading goes on after it. */
  lemma EntriesStep(source: seq<Byte>, pos: nat, n: nat, entries: map<seq<Byte>, Object>)
    requires pos <= |source| && n > 0 && ReadEntry(source, pos, entries).Success?
    ensures ReadEntries(source, pos, n, entries)
         == ReadEntries(source, ReadEntry(source, pos, entries).value.1, n - 1, ReadEntry(source, pos, entries).value.0)
  {
  }

  /** A list tag: the array read after it, wrapped by `make_array`. */
  lemma ArrayTag(source: seq<Byte>, from: nat, width: nat)
    requires from < |source| && source[from] == (if width == 4 then TAG_ARRAY_SMALL else TAG_ARRAY_LARGE)
    requires width == 4 || width == 8
    requires ReadArray(source, from + 1, width).Success?
    ensures ReadFrom(source, from)
         == Success((MakeArray(ReadArray(source, from + 1, width).value.0), ReadArray(source, from + 1, width).value.1))
  {
  }

  /** A dictionary tag: the pairs read after it, wrapped by `make_dictionary`. */
  lemma DictionaryTag(source: seq<Byte>, from: nat, width: nat)
    requires from < |source| && source[from] == (if width == 4 then TAG_DICT_SMALL else TAG_DICT_LARGE)
    requires width == 4 || width == 8
    requires ReadDictionary(source, from + 1, width).Success?
    ensures ReadFrom(source, from)
         == Success((MakeDictionary(ReadDictionary(source, from + 1, width).value.0),
                     ReadDictionary(source, from + 1, width).value.1))
  {
  }

  /** A pass whose key is a fresh string and whose value reads stores that value under the key's bytes. */
  lemma EntryStored(source: seq<Byte>, pos: nat, entries: map<seq<Byte>, Object>)
    requires ReadFrom(source, pos).Success?
    requires ReadFrom(source, pos).value.0.tag == String && ReadFrom(source, pos).value.0.bytes !in entries
    requires ReadFrom(source, ReadFrom(source, pos).value.1).Success?
    ensures var key := ReadFrom(source, pos).value;
      var value := ReadFrom(source, key.1).value;
      ReadEntry(source, pos, entries) == Success((entries[key.0.bytes := Assigned(MakeNull(), value.0)], value.1))
  {
  }

  /** `read_data(source)`: the object at the start; bytes after it are ignored. */
  function ReadData(source: seq<Byte>): (r: Result<Object, ReadError>)
    ensures r.Success? <==> ReadFrom(source, 0).Success?
    ensures r.Success? ==> r.value == ReadFrom(source, 0).value.0
  {
    match ReadFrom(source, 0)
    case Failure(e) => Failure(e)
    case Success((o, _)) => Success(o)
  }

  /** `read_from`, with its position threaded through `end` as the source does. */
  method ReadObject(source: seq<Byte>, from: nat) returns (r: Result<(Object, nat), ReadError>)
    ensures r == ReadFrom(source, from)
    decreases |source| - from, 0
  {
    if from >= |source| {
      return Failure(PastEnd);
    }
    var tag := source[from];
    if tag == TAG_ARRAY_SMALL || tag == TAG_ARRAY_LARGE {
      var items := ReadArrayObjects(source, from + 1, if tag == TAG_ARRAY_SMALL then 4 else 8);
      if items.Failure? {
        return Failure(items.error);
      }
      return Success((MakeArray(items.value.0), items.value.1));
    } else if tag == TAG_DICT_SMALL || tag == TAG_DICT_LARGE {
      var entries := ReadDictionaryObjects(source, from + 1, if tag == TAG_DICT_SMALL then 4 else 8);
      if entries.Failure? {
        return Failure(entries.error);
      }
      return Success((MakeDictionary(entries.value.0), entries.value.1));
    }
    return ReadScalar(source, from);
  }

  /** `read_array<T>`: `length` objects pushed in order, `from` advanced past each. */
  method ReadArrayObjects(source: seq<Byte>, start: nat, width: nat) returns (r: Result<(seq<Object>, nat), ReadError>)
    requires start <= |source| && width > 0
    ensures r == ReadArray(source, start, width)
    decreases |source| - start, 2
  {
    var header := ReadUnsigned(source, start, width);
    if header.Failure? {
      return Failure(header.error);
    }
    r := ReadItemObjects(source, header.value.1, header.value.0);
  }

  /** The loop of `read_array<T>`: `length` objects read one after another from `from`. */
  method ReadItemObjects(source: seq<Byte>, start: nat, length: nat) returns (r: Result<(seq<Object>, nat), ReadError>)
    requires start <= |source|
    ensures r == ReadItems(source, start, length, [])
    decreases |source| - start, 1
  {
    var elements: seq<Object> := [];
    var from := start;
    var i := 0;
    while i < length
      invariant 0 <= i <= length && start <= from <= |source| && |elements| == i
      invariant ReadItems(source, start, length, []) == ReadItems(source, from, length - i, elements)
      decreases length - i
    {
      var next := ReadObject(source, from);
      if next.Failure? {
        assert ReadItems(source, from, length - i, elements) == Failure(next.error);
        return Failure(next.error);
      }
      ItemsStep(source, from, length - i, elements);
      elements := elements + [next.value.0];
      from := next.value.1;
      i := i + 1;
    }
    return Success((elements, from));
  }

  /** `read_dictionary<T>`: `length` key/value pairs, each key checked before its value is read. */
  method ReadDictionaryObjects(source: seq<Byte>, start: nat, width: nat)
    returns (r: Result<(map<seq<Byte>, Object>, nat), ReadError>)
    requires start <= |source| && width > 0
    ensures r == ReadDictionary(source, start, width)
    decreases |source| - start, 3
  {
    var header := ReadUnsigned(source, start, width);
    if header.Failure? {
      return Failure(header.error);
    }
    r := ReadEntryObjects(source, header.value.1, header.value.0);
  }

  /** The loop of `read_dictionary<T>`: `length` key/value pairs read one after another from `from`. */
  method ReadEntryObjects(source: seq<Byte>, start: nat, length: nat)
    returns (r: Result<(map<seq<Byte>, Object>, nat), ReadError>)
    requires start <= |source|
    ensures r == ReadEntries(source, start, length, map[])
    decreases |source| - start, 1
  {
    var dictionary: map<seq<Byte>, Object> := map[];
    var from := start;
    var i := 0;
    while i < length
      invariant 0 <= i <= length && start <= from <= |source|
      invariant ReadEntries(source, start, length, map[]) == ReadEntries(source, from, length - i, dictionary)
      decreases length - i
    {
      // the pass of ReadEntries this iteration performs
      ghost var pass := ReadEntry(source, from, dictionary);
      var key := ReadObject(source, from);
      if key.Failure? {
        return Failure(key.error);
      }
      if key.value.0.tag != String {
        return Failure(KeyNotString);
      }
      if key.value.0.bytes in dictionary {
        return Failure(DuplicateKey);
      }
      var value := ReadObject(source, key.value.1);
      if value.Failure? {
        return Failure(value.error);
      }
      dictionary := dictionary[key.value.0.bytes := Assigned(MakeNull(), value.value.0)];
      from := value.value.1;
      i := i + 1;
    }
    return Success((dictionary, from));
  }
}
