/**
 * What the C++ reader makes of the bytes the Python `dump` writes: for a
 * value whose dictionary keys are distinct strings and whose integers fit
 * the C++ `int64_t`, `read_from` at the start of the dump succeeds, ends
 * exactly where the dump ends, and holds the value the Python side wrote
 * (ValueOf). A dictionary with a non-string key is written by Python but
 * refused by the reader.
 */
module DataReaderRoundTrip {
  import opened Wrappers
  import opened ByteOrder
  import opened PyValues
  import opened RbdefEncode
  import opened DataObject
  import opened DataReader

  /** The bytes a string key is written as. */
  function KeyBytes(k: PyValue): seq<Byte>
  {
    match k
    case PyStr(bytes) => bytes
    case PyUnicode(text) => Utf8(text)
    case _ => []
  }

  /**
   * The values the C++ reader accepts back: no long or foreign object,
   * integers that fit `int64_t`, and dictionaries whose keys are strings
   * with pairwise distinct bytes.
   */
  predicate CppReadable(v: PyValue)
    decreases v, 1
  {
    match v
    case PyNone => true
    case PyBool(_) => true
    case PyInt(n) => -TWO_63 < n < TWO_63
    case PyStr(_) => true
    case PyUnicode(_) => true
    case PyList(items) => CppReadableItems(items)
    case PyTuple(items) => CppReadableItems(items)
    case PyDict(entries) => CppReadableEntries(entries) && FreshKeys(entries, {})
    case _ => false
  }

  predicate CppReadableItems(items: seq<PyValue>)
    decreases items, 0
  {
    |items| > 0 ==> CppReadable(items[0]) && CppReadableItems(items[1..])
  }

  /** Every key is a string and every value readable. */
  predicate CppReadableEntries(entries: seq<(PyValue, PyValue)>)
    decreases entries, 0
  {
    |entries| > 0 ==>
      var pair := entries[0];
      assert pair in entries && pair.1 < pair;
      (pair.0.PyStr? || pair.0.PyUnicode?) && CppReadable(pair.1) && CppReadableEntries(entries[1..])
  }

  /** No key's bytes are in `seen` or among the earlier keys. */
  predicate FreshKeys(entries: seq<(PyValue, PyValue)>, seen: set<seq<Byte>>)
  {
    |entries| > 0 ==> KeyBytes(entries[0].0) !in seen && FreshKeys(entries[1..], seen + {KeyBytes(entries[0].0)})
  }

  /** The value a C++ object built from v holds: an int is readable both as an integer and as a double. */
  function ValueOf(v: PyValue): Value
    requires CppReadable(v)
    decreases v, 1
  {
    match v
    case PyNone => NullValue
    case PyBool(b) => BoolValue(b)
    case PyInt(n) => NumberValue(n, NearestTo(n))
    case PyStr(bytes) => StringValue(bytes)
    case PyUnicode(text) => StringValue(Utf8(text))
    case PyList(items) => ArrayValue(ValueItems(items))
    case PyTuple(items) => ArrayValue(ValueItems(items))
    case PyDict(entries) => DictionaryValue(ValueEntries(entries, map[]))
  }

  function ValueItems(items: seq<PyValue>): (r: seq<Value>)
    requires CppReadableItems(items)
    decreases items, 0
  {
    if |items| == 0 then [] else [ValueOf(items[0])] + ValueItems(items[1..])
  }

  /** The pairs stored into `acc` in `items()` order. */
  function ValueEntries(entries: seq<(PyValue, PyValue)>, acc: map<seq<Byte>, Value>): map<seq<Byte>, Value>
    requires CppReadableEntries(entries)
    decreases entries, 0
  {
    if |entries| == 0 then acc
    else
      var pair := entries[0];
      assert pair in entries && pair.1 < pair;
      ValueEntries(entries[1..], acc[KeyBytes(pair.0) := ValueOf(pair.1)])
  }

  /** The values held by a sequence of objects. */
  function ActiveSeq(xs: seq<Object>): (r: seq<Value>)
    ensures |r| == |xs|
  {
    seq(|xs|, i requires 0 <= i < |xs| => Active(xs[i]))
  }

  /** The values held by a map of objects. */
  function ActiveMap(m: map<seq<Byte>, Object>): (r: map<seq<Byte>, Value>)
    ensures r.Keys == m.Keys
  {
    map k | k in m :: Active(m[k])
  }

  lemma ArrayHolds(xs: seq<Object>)
    ensures Active(MakeArray(xs)) == ArrayValue(ActiveSeq(xs))
  {
    assert Active(MakeArray(xs)).items == ActiveSeq(xs);
  }

  lemma DictionaryHolds(m: map<seq<Byte>, Object>)
    ensures Active(MakeDictionary(m)) == DictionaryValue(ActiveMap(m))
  {
    assert Active(MakeDictionary(m)).entries == ActiveMap(m);
  }

  lemma ActiveSeqSnoc(xs: seq<Object>, o: Object)
    ensures ActiveSeq(xs + [o]) == ActiveSeq(xs) + [Active(o)]
  {
    assert forall i | 0 <= i < |xs| :: (xs + [o])[i] == xs[i];
  }

  lemma ActiveMapUpdate(m: map<seq<Byte>, Object>, k: seq<Byte>, o: Object)
    ensures ActiveMap(m[k := o]) == ActiveMap(m)[k := Active(o)]
  {
  }

  lemma AtSplit(source: seq<Byte>, from: nat, e: seq<Byte>, i: nat)
    requires At(source, from, e) && i <= |e|
    ensures At(source, from, e[..i]) && At(source, from + i, e[i..])
  {
    assert source[from..from + i] == source[from..from + |e|][..i];
    assert source[from + i..from + |e|] == source[from..from + |e|][i..];
  }

  lemma AtConcat(source: seq<Byte>, from: nat, a: seq<Byte>, b: seq<Byte>)
    requires At(source, from, a + b)
    ensures At(source, from, a) && At(source, from + |a|, b)
  {
    AtSplit(source, from, a + b, |a|);
    assert (a + b)[..|a|] == a && (a + b)[|a|..] == b;
  }

  /** The tag byte, then the bytes after it. */
  lemma AtHead(source: seq<Byte>, from: nat, e: seq<Byte>)
    requires At(source, from, e) && |e| > 0
    ensures from < |source| && source[from] == e[0]
    ensures source[from + 1..from + |e|] == e[1..]
  {
    AtSplit(source, from, e, 1);
    assert source[from..from + |e|][0] == e[0];
  }

  /** An object holds a string only when its tag says String. */
  lemma HoldsString(o: Object, bytes: seq<Byte>)
    requires Active(o) == StringValue(bytes)
    ensures o.tag == String && o.bytes == bytes
  {
  }

  lemma IntReadBack(n: int, source: seq<Byte>, from: nat)
    requires DumpInt(n).Success? && At(source, from, DumpInt(n).value)
    ensures var r := ReadFrom(source, from);
      r.Success? && r.value.1 == from + |DumpInt(n).value| && Active(r.value.0) == NumberValue(n, NearestTo(n))
  {
    var e := DumpInt(n).value;
    AtHead(source, from, e);
    Pow256Values();
  }

  lemma StrReadBack(bytes: seq<Byte>, source: seq<Byte>, from: nat)
    requires DumpStr(bytes).Success? && At(source, from, DumpStr(bytes).value)
    ensures var r := ReadFrom(source, from);
      r.Success? && r.value.1 == from + |DumpStr(bytes).value| && Active(r.value.0) == StringValue(bytes)
  {
    var e := DumpStr(bytes).value;
    var h := if |bytes| < TWO_32 then 5 else 9;
    AtHead(source, from, e);
    AtSplit(source, from, e, h);
    assert source[from + 1..from + h] == e[1..h] by {
      assert source[from + 1..from + h] == source[from + 1..from + |e|][..h - 1];
      assert e[1..h] == e[1..][..h - 1];
    }
    Pow256Values();
  }

  /** Whatever surrounds it, a dump of a readable value reads back as that value. */
  lemma {:induction false} ReadBack(v: PyValue, source: seq<Byte>, from: nat)
    requires NoFloats(v) && CppReadable(v) && Dump(v).Success?
    requires At(source, from, Dump(v).value)
    ensures var r := ReadFrom(source, from);
      r.Success? && r.value.1 == from + |Dump(v).value| && Active(r.value.0) == ValueOf(v)
    decreases v, 1
  {
    AtHead(source, from, Dump(v).value);
    match v
    case PyNone =>
    case PyBool(_) =>
    case PyInt(n) => IntReadBack(n, source, from);
    case PyStr(bytes) => StrReadBack(bytes, source, from);
    case PyUnicode(text) => StrReadBack(Utf8(text), source, from);
    case PyList(items) => ArrayReadBack(items, source, from);
    case PyTuple(items) => ArrayReadBack(items, source, from);
    case PyDict(entries) => DictReadBack(entries, source, from);
  }

  /** A dumped count reads back as that count, and what follows it starts after the header. */
  lemma CountReadBack(small: Byte, large: Byte, n: nat, source: seq<Byte>, from: nat, rest: seq<Byte>)
    requires DumpUint(small, large, n).Success?
    requires At(source, from, DumpUint(small, large, n).value + rest)
    ensures var h := DumpUint(small, large, n).value;
      from < |source| && source[from] == h[0] && At(source, from + |h|, rest) &&
      ReadUnsigned(source, from + 1, |h| - 1) == Success((n, from + |h|))
  {
    var h := DumpUint(small, large, n).value;
    AtConcat(source, from, h, rest);
    AtHead(source, from, h);
  }

  /** `read_array` right after the tag of a dumped list reads back its elements' values. */
  lemma {:induction false} ArrayBodyReadBack(items: seq<PyValue>, source: seq<Byte>, from: nat)
    requires NoFloatsItems(items) && CppReadableItems(items) && DumpArray(items).Success?
    requires At(source, from, DumpArray(items).value)
    ensures var h := DumpUint(TAG_ARRAY_SMALL, TAG_ARRAY_LARGE, |items|).value;
      from < |source| && source[from] == h[0] && ReadArray(source, from + 1, |h| - 1).Success? &&
      ReadArray(source, from + 1, |h| - 1).value.1 == from + |DumpArray(items).value| &&
      ActiveSeq(ReadArray(source, from + 1, |h| - 1).value.0) == ValueItems(items)
    decreases items, 3
  {
    var h := DumpUint(TAG_ARRAY_SMALL, TAG_ARRAY_LARGE, |items|).value;
    CountReadBack(TAG_ARRAY_SMALL, TAG_ARRAY_LARGE, |items|, source, from, DumpItems(items).value);
    ItemsReadBack(items, source, from + |h|, []);
    assert ActiveSeq([]) == [];
  }

  lemma {:induction false} ArrayReadBack(items: seq<PyValue>, source: seq<Byte>, from: nat)
    requires NoFloatsItems(items) && CppReadableItems(items) && DumpArray(items).Success?
    requires At(source, from, DumpArray(items).value)
    ensures var r := ReadFrom(source, from);
      r.Success? && r.value.1 == from + |DumpArray(items).value| && Active(r.value.0) == ArrayValue(ValueItems(items))
    decreases items, 4
  {
    ArrayBodyReadBack(items, source, from);
    var w := |DumpUint(TAG_ARRAY_SMALL, TAG_ARRAY_LARGE, |items|).value| - 1;
    ArrayTag(source, from, w);
    ArrayHolds(ReadArray(source, from + 1, w).value.0);
  }

  /** `read_dictionary` right after the tag of a dumped dict stores its pairs' values under their keys. */
  lemma {:induction false} DictBodyReadBack(entries: seq<(PyValue, PyValue)>, source: seq<Byte>, from: nat)
    requires NoFloatsEntries(entries) && CppReadableEntries(entries) && FreshKeys(entries, {}) && DumpDict(entries).Success?
    requires At(source, from, DumpDict(entries).value)
    ensures var h := DumpUint(TAG_DICT_SMALL, TAG_DICT_LARGE, |entries|).value;
      from < |source| && source[from] == h[0] && ReadDictionary(source, from + 1, |h| - 1).Success? &&
      ReadDictionary(source, from + 1, |h| - 1).value.1 == from + |DumpDict(entries).value| &&
      ActiveMap(ReadDictionary(source, from + 1, |h| - 1).value.0) == ValueEntries(entries, map[])
    decreases entries, 3
  {
    var h := DumpUint(TAG_DICT_SMALL, TAG_DICT_LARGE, |entries|).value;
    CountReadBack(TAG_DICT_SMALL, TAG_DICT_LARGE, |entries|, source, from, DumpEntries(entries).value);
    var empty: map<seq<Byte>, Object> := map[];
    assert ActiveMap(empty) == map[] && empty.Keys == {};
    EntriesReadBack(entries, source, from + |h|, empty);
  }

  lemma {:induction false} DictReadBack(entries: seq<(PyValue, PyValue)>, source: seq<Byte>, from: nat)
    requires NoFloatsEntries(entries) && CppReadableEntries(entries) && FreshKeys(entries, {}) && DumpDict(entries).Success?
    requires At(source, from, DumpDict(entries).value)
    ensures var r := ReadFrom(source, from);
      r.Success? && r.value.1 == from + |DumpDict(entries).value| &&
      Active(r.value.0) == DictionaryValue(ValueEntries(entries, map[]))
    decreases entries, 4
  {
    DictBodyReadBack(entries, source, from);
    var w := |DumpUint(TAG_DICT_SMALL, TAG_DICT_LARGE, |entries|).value| - 1;
    DictionaryTag(source, from, w);
    DictionaryHolds(ReadDictionary(source, from + 1, w).value.0);
  }

  /** The first dumped element reads back, and the rest of the dump starts where it ends. */
  lemma {:induction false} ItemsHead(items: seq<PyValue>, source: seq<Byte>, pos: nat)
    requires |items| > 0 && NoFloatsItems(items) && CppReadableItems(items) && DumpItems(items).Success?
    requires At(source, pos, DumpItems(items).value)
    ensures NoFloatsItems(items[1..]) && CppReadableItems(items[1..]) && DumpItems(items[1..]).Success?
    ensures var r := ReadFrom(source, pos);
      r.Success? && Active(r.value.0) == ValueOf(items[0]) &&
      |DumpItems(items).value| == r.value.1 - pos + |DumpItems(items[1..]).value| &&
      At(source, r.value.1, DumpItems(items[1..]).value)
    decreases items, 0
  {
    DumpItemsCons(items);
    AtConcat(source, pos, Dump(items[0]).value, DumpItems(items[1..]).value);
    ReadBack(items[0], source, pos);
  }

  lemma ActiveSeqCons(acc: seq<Object>, o: Object, tail: seq<Value>)
    ensures ActiveSeq(acc + [o]) + tail == ActiveSeq(acc) + ([Active(o)] + tail)
  {
    ActiveSeqSnoc(acc, o);
  }

  /** `read_array`'s loop over the dumped elements appends exactly their values. */
  lemma {:induction false} ItemsReadBack(items: seq<PyValue>, source: seq<Byte>, pos: nat, acc: seq<Object>)
    requires NoFloatsItems(items) && CppReadableItems(items) && DumpItems(items).Success?
    requires At(source, pos, DumpItems(items).value)
    ensures var r := ReadItems(source, pos, |items|, acc);
      r.Success? && r.value.1 == pos + |DumpItems(items).value| &&
      ActiveSeq(r.value.0) == ActiveSeq(acc) + ValueItems(items)
    decreases items, 1
  {
    if |items| == 0 {
      assert ActiveSeq(acc) + [] == ActiveSeq(acc);
    } else {
      ItemsHead(items, source, pos);
      var o := ReadFrom(source, pos).value.0;
      var end := ReadFrom(source, pos).value.1;
      ItemsStep(source, pos, |items|, acc);
      ItemsReadBack(items[1..], source, end, acc + [o]);
      ActiveSeqCons(acc, o, ValueItems(items[1..]));
    }
  }

  lemma AtConcat3(source: seq<Byte>, from: nat, a: seq<Byte>, b: seq<Byte>, c: seq<Byte>)
    requires At(source, from, a + b + c)
    ensures At(source, from, a) && At(source, from + |a|, b + c)
  {
    assert a + b + c == a + (b + c);
    AtConcat(source, from, a, b + c);
  }

  /** The first dumped key reads back as a string object holding its bytes. */
  lemma KeyHead(entries: seq<(PyValue, PyValue)>, source: seq<Byte>, pos: nat) returns (key: Object, afterKey: nat)
    requires |entries| > 0 && NoFloatsEntries(entries) && CppReadableEntries(entries) && DumpEntries(entries).Success?
    requires At(source, pos, DumpEntries(entries).value)
    ensures NoFloatsEntries(entries[1..]) && CppReadableEntries(entries[1..]) && DumpEntries(entries[1..]).Success?
    ensures entries[0] in entries && entries[0].1 < entries[0]
    ensures NoFloats(entries[0].1) && CppReadable(entries[0].1) && Dump(entries[0].1).Success?
    ensures ReadFrom(source, pos) == Success((key, afterKey))
    ensures key.tag == String && key.bytes == KeyBytes(entries[0].0)
    ensures At(source, afterKey, Dump(entries[0].1).value + DumpEntries(entries[1..]).value)
    ensures |DumpEntries(entries).value| == afterKey - pos + |Dump(entries[0].1).value| + |DumpEntries(entries[1..]).value|
    decreases entries, 0
  {
    DumpEntriesCons(entries);
    var pair := entries[0];
    assert pair in entries && pair.0 < pair && pair.1 < pair;
    AtConcat3(source, pos, Dump(pair.0).value, Dump(pair.1).value, DumpEntries(entries[1..]).value);
    ReadBack(pair.0, source, pos);
    key := ReadFrom(source, pos).value.0;
    afterKey := ReadFrom(source, pos).value.1;
    HoldsString(key, KeyBytes(pair.0));
  }

  /** A dumped value followed by `rest` reads back, and `rest` starts where it ends. */
  lemma ValueHead(v: PyValue, source: seq<Byte>, from: nat, rest: seq<Byte>) returns (value: Object, end: nat)
    requires NoFloats(v) && CppReadable(v) && Dump(v).Success?
    requires At(source, from, Dump(v).value + rest)
    ensures ReadFrom(source, from) == Success((value, end))
    ensures Active(value) == ValueOf(v) && end == from + |Dump(v).value| && At(source, end, rest)
    decreases v, 2
  {
    AtConcat(source, from, Dump(v).value, rest);
    ReadBack(v, source, from);
    value := ReadFrom(source, from).value.0;
    end := ReadFrom(source, from).value.1;
  }

  /** A fresh string key and the value after it are stored by one pass of `read_dictionary`'s loop. */
  lemma PairStored(source: seq<Byte>, pos: nat, acc: map<seq<Byte>, Object>, key: Object, afterKey: nat,
                   value: Object, end: nat)
    requires ReadFrom(source, pos) == Success((key, afterKey)) && key.tag == String && key.bytes !in acc
    requires ReadFrom(source, afterKey) == Success((value, end))
    ensures ReadEntry(source, pos, acc) == Success((acc[key.bytes := Assigned(MakeNull(), value)], end))
    ensures ActiveMap(acc[key.bytes := Assigned(MakeNull(), value)]) == ActiveMap(acc)[key.bytes := Active(value)]
  {
    EntryStored(source, pos, acc);
    ActiveMapUpdate(acc, key.bytes, Assigned(MakeNull(), value));
  }

  /** The first dumped pair reads back into `acc`, and the rest of the dump starts where it ends. */
  lemma {:induction false} EntriesHead(entries: seq<(PyValue, PyValue)>, source: seq<Byte>, pos: nat,
                                       acc: map<seq<Byte>, Object>)
    returns (next: map<seq<Byte>, Object>, end: nat)
    requires |entries| > 0 && NoFloatsEntries(entries) && CppReadableEntries(entries) && FreshKeys(entries, acc.Keys)
    requires DumpEntries(entries).Success?
    requires At(source, pos, DumpEntries(entries).value)
    ensures NoFloatsEntries(entries[1..]) && CppReadableEntries(entries[1..]) && DumpEntries(entries[1..]).Success?
    ensures entries[0] in entries && entries[0].1 < entries[0] && CppReadable(entries[0].1)
    ensures ReadEntry(source, pos, acc) == Success((next, end))
    ensures next.Keys == acc.Keys + {KeyBytes(entries[0].0)}
    ensures ActiveMap(next) == ActiveMap(acc)[KeyBytes(entries[0].0) := ValueOf(entries[0].1)]
    ensures |DumpEntries(entries).value| == end - pos + |DumpEntries(entries[1..]).value|
    ensures At(source, end, DumpEntries(entries[1..]).value)
    decreases entries, 1
  {
    var key, afterKey := KeyHead(entries, source, pos);
    var value;
    value, end := ValueHead(entries[0].1, source, afterKey, DumpEntries(entries[1..]).value);
    next := acc[key.bytes := Assigned(MakeNull(), value)];
    PairStored(source, pos, acc, key, afterKey, value, end);
  }

  /** `read_dictionary`'s loop over the dumped pairs stores exactly their values under their keys' bytes. */
  lemma {:induction false} EntriesReadBack(entries: seq<(PyValue, PyValue)>, source: seq<Byte>, pos: nat,
                                           acc: map<seq<Byte>, Object>)
    requires NoFloatsEntries(entries) && CppReadableEntries(entries) && FreshKeys(entries, acc.Keys)
    requires DumpEntries(entries).Success?
    requires At(source, pos, DumpEntries(entries).value)
    ensures var r := ReadEntries(source, pos, |entries|, acc);
      r.Success? && r.value.1 == pos + |DumpEntries(entries).value| &&
      ActiveMap(r.value.0) == ValueEntries(entries, ActiveMap(acc))
    decreases entries, 2
  {
    if |entries| > 0 {
      var next, end := EntriesHead(entries, source, pos, acc);
      EntriesStep(source, pos, |entries|, acc);
      EntriesReadBack(entries[1..], source, end, next);
    }
  }

  /** `read_data` of a whole dump holds the value Python wrote. */
  lemma ReadDataOfDump(v: PyValue)
    requires NoFloats(v) && CppReadable(v) && Dumps(v).Success?
    ensures ReadData(Dumps(v).value).Success? && Active(ReadData(Dumps(v).value).value) == ValueOf(v)
  {
    ReadBack(v, Dumps(v).value, 0);
  }

  /** Python writes a dictionary with an integer key; the C++ reader refuses it. */
  lemma IntegerKeyIsRefused()
    ensures var d := PyDict([(PyInt(1), PyNone)]);
      NoFloats(d) && Dumps(d).Success? && ReadData(Dumps(d).value) == Failure(KeyNotString)
  {
    var entries := [(PyInt(1), PyNone)];
    assert NoFloatsEntries(entries[1..]);
    DumpEntriesCons(entries);
    var h := DumpUint(TAG_DICT_SMALL, TAG_DICT_LARGE, 1).value;
    var k := DumpInt(1).value;
    var body := DumpEntries(entries).value;
    assert body == k + [TAG_NULL] + [];
    var s := h + body;
    assert At(s, 0, h + body);
    AtConcat(s, 0, h, body);
    AtHead(s, 0, h);
    AtHead(s, 5, k);
    Pow256Values();
    assert ReadUnsigned(s, 1, 4) == Success((1, 5));
    assert ReadFrom(s, 5).value.0.tag == IntOrFloat;
    assert ReadEntries(s, 5, 1, map[]) == Failure(KeyNotString);
  }
}
