/**
 * `load` inverts `dump`: decoding an encoding gives the value back,
 * except that unicode comes back as its UTF-8 bytes and tuples as lists,
 * and it consumes exactly the bytes of that one encoding.
 */
module RbdefRoundTrip {
  import opened Wrappers
  import opened ByteOrder
  import opened PyValues
  import opened RbdefEncode
  import opened RbdefDecode

  /** No dict key anywhere in v is a list, tuple or dict (their decoded form, a list, cannot be hashed). */
  predicate ScalarKeys(v: PyValue)
    decreases v, 1
  {
    match v
    case PyList(items) => ScalarKeysItems(items)
    case PyTuple(items) => ScalarKeysItems(items)
    case PyDict(entries) => ScalarKeysEntries(entries)
    case _ => true
  }

  predicate ScalarKeysItems(items: seq<PyValue>)
    decreases items, 0
  {
    |items| > 0 ==> ScalarKeys(items[0]) && ScalarKeysItems(items[1..])
  }

  predicate ScalarKeysEntries(entries: seq<(PyValue, PyValue)>)
    decreases entries, 0
  {
    |entries| > 0 ==>
      var pair := entries[0];
      assert pair in entries && pair.0 < pair && pair.1 < pair;
      !(pair.0.PyList? || pair.0.PyTuple? || pair.0.PyDict?) &&
      ScalarKeys(pair.0) && ScalarKeys(pair.1) && ScalarKeysEntries(entries[1..])
  }

  /** What `loads(dumps(v))` gives back: unicode as UTF-8 bytes, tuples as lists. */
  function Decoded(v: PyValue): PyValue
    decreases v, 1
  {
    match v
    case PyUnicode(text) => PyStr(Utf8(text))
    case PyList(items) => PyList(DecodedItems(items))
    case PyTuple(items) => PyList(DecodedItems(items))
    case PyDict(entries) => PyDict(DecodedEntries(entries))
    case _ => v
  }

  function DecodedItems(items: seq<PyValue>): (r: seq<PyValue>)
    ensures |r| == |items|
    decreases items, 0
  {
    if |items| == 0 then [] else [Decoded(items[0])] + DecodedItems(items[1..])
  }

  function DecodedEntries(entries: seq<(PyValue, PyValue)>): (r: seq<(PyValue, PyValue)>)
    ensures |r| == |entries|
    decreases entries, 0
  {
    if |entries| == 0 then []
    else
      var pair := entries[0];
      assert pair in entries && pair.0 < pair && pair.1 < pair;
      [(Decoded(pair.0), Decoded(pair.1))] + DecodedEntries(entries[1..])
  }

  lemma Concat3(a: seq<Byte>, b: seq<Byte>, c: seq<Byte>)
    ensures (a + b) + c == a + (b + c)
  {
  }

  lemma Concat4(a: seq<Byte>, b: seq<Byte>, c: seq<Byte>, d: seq<Byte>)
    ensures (a + b + c) + d == a + (b + (c + d))
  {
  }

  /** A written header followed by a body splits into its tag byte and everything after it. */
  lemma HeaderSplit(h: seq<Byte>, body: seq<Byte>, rest: seq<Byte>)
    requires |h| > 0
    ensures (h + body) + rest == [(h + body)[0]] + (h[1..] + (body + rest))
  {
    assert h == [h[0]] + h[1..];
  }

  /** A length header written by DumpUint is read back by LoadUint, which stops right after it. */
  lemma UintRoundTrip(small: Byte, large: Byte, n: nat, rest: seq<Byte>)
    requires small != large
    requires DumpUint(small, large, n).Success?
    ensures var h := DumpUint(small, large, n).value;
      LoadUint(h[1..] + rest, h[0] == large) == Success((n, rest))
  {
    var h := DumpUint(small, large, n).value;
    var w := |h| - 1;
    assert (h[1..] + rest)[..w] == h[1..];
    assert (h[1..] + rest)[w..] == rest;
  }

  /** Load reads back the one value that Dump wrote, and leaves the bytes after it unread. */
  lemma {:induction false} RoundTrip(v: PyValue, rest: seq<Byte>)
    requires NoFloats(v) && ScalarKeys(v)
    requires Dump(v).Success?
    ensures Load(Dump(v).value + rest) == Success((Decoded(v), rest))
    decreases v, 1
  {
    match v
    case PyNone =>
      LoadDispatch(TAG_NULL, rest);
    case PyBool(b) =>
      LoadDispatch(if b then TAG_TRUE else TAG_FALSE, rest);
    case PyInt(n) =>
      IntRoundTrip(n, rest);
    case PyStr(bytes) =>
      StrRoundTrip(bytes, rest);
    case PyUnicode(text) =>
      StrRoundTrip(Utf8(text), rest);
    case PyList(items) =>
      ArrayRoundTrip(items, rest);
    case PyTuple(items) =>
      ArrayRoundTrip(items, rest);
    case PyDict(entries) =>
      DictRoundTrip(entries, rest);
  }

  lemma IntRoundTrip(n: int, rest: seq<Byte>)
    requires DumpInt(n).Success?
    ensures Load(DumpInt(n).value + rest) == Success((PyInt(n), rest))
  {
    var b := DumpInt(n).value;
    var tail := b[1..] + rest;
    assert b + rest == [b[0]] + tail;
    LoadDispatch(b[0], tail);
    assert tail[..|b| - 1] == b[1..] && tail[|b| - 1..] == rest;
  }

  lemma StrRoundTrip(bytes: seq<Byte>, rest: seq<Byte>)
    requires DumpStr(bytes).Success?
    ensures Load(DumpStr(bytes).value + rest) == Success((PyStr(bytes), rest))
  {
    var h := DumpUint(TAG_STR_SMALL, TAG_STR_LARGE, |bytes|).value;
    var b := DumpStr(bytes).value;
    assert b == h + bytes;
    assert b + rest == [b[0]] + (h[1..] + (bytes + rest));
    LoadDispatch(b[0], h[1..] + (bytes + rest));
    UintRoundTrip(TAG_STR_SMALL, TAG_STR_LARGE, |bytes|, bytes + rest);
    assert (bytes + rest)[..|bytes|] == bytes && (bytes + rest)[|bytes|..] == rest;
  }

  lemma {:induction false} ArrayRoundTrip(items: seq<PyValue>, rest: seq<Byte>)
    requires NoFloatsItems(items) && ScalarKeysItems(items)
    requires DumpArray(items).Success?
    ensures Load(DumpArray(items).value + rest) == Success((PyList(DecodedItems(items)), rest))
    decreases items, 2
  {
    var h := DumpUint(TAG_ARRAY_SMALL, TAG_ARRAY_LARGE, |items|).value;
    var body := DumpItems(items).value;
    var b := DumpArray(items).value;
    assert b == h + body;
    HeaderSplit(h, body, rest);
    LoadDispatch(b[0], h[1..] + (body + rest));
    UintRoundTrip(TAG_ARRAY_SMALL, TAG_ARRAY_LARGE, |items|, body + rest);
    ItemsRoundTrip(items, rest);
  }

  lemma {:induction false} DictRoundTrip(entries: seq<(PyValue, PyValue)>, rest: seq<Byte>)
    requires NoFloatsEntries(entries) && ScalarKeysEntries(entries)
    requires DumpDict(entries).Success?
    ensures Load(DumpDict(entries).value + rest) == Success((PyDict(DecodedEntries(entries)), rest))
    decreases entries, 2
  {
    var h := DumpUint(TAG_DICT_SMALL, TAG_DICT_LARGE, |entries|).value;
    var body := DumpEntries(entries).value;
    var b := DumpDict(entries).value;
    assert b == h + body;
    HeaderSplit(h, body, rest);
    LoadDispatch(b[0], h[1..] + (body + rest));
    UintRoundTrip(TAG_DICT_SMALL, TAG_DICT_LARGE, |entries|, body + rest);
    EntriesRoundTrip(entries, rest);
  }

  lemma {:induction false} ItemsRoundTrip(items: seq<PyValue>, rest: seq<Byte>)
    requires NoFloatsItems(items) && ScalarKeysItems(items)
    requires DumpItems(items).Success?
    ensures LoadItems(DumpItems(items).value + rest, |items|) == Success((DecodedItems(items), rest))
    decreases items, 0
  {
    if |items| > 0 {
      var head := Dump(items[0]).value;
      var tail := DumpItems(items[1..]).value;
      DumpItemsCons(items);
      Concat3(head, tail, rest);
      RoundTrip(items[0], tail + rest);
      ItemsRoundTrip(items[1..], rest);
      LoadItemsStep(head + (tail + rest), |items|, Decoded(items[0]), tail + rest, DecodedItems(items[1..]), rest);
    } else {
      assert DumpItems(items).value + rest == rest;
    }
  }

  lemma {:induction false} EntriesRoundTrip(entries: seq<(PyValue, PyValue)>, rest: seq<Byte>)
    requires NoFloatsEntries(entries) && ScalarKeysEntries(entries)
    requires DumpEntries(entries).Success?
    ensures LoadEntries(DumpEntries(entries).value + rest, |entries|) == Success((DecodedEntries(entries), rest))
    decreases entries, 0
  {
    if |entries| > 0 {
      var pair := entries[0];
      assert pair in entries && pair.0 < pair && pair.1 < pair;
      var k := Dump(pair.0).value;
      var v := Dump(pair.1).value;
      var tail := DumpEntries(entries[1..]).value;
      DumpEntriesCons(entries);
      Concat4(k, v, tail, rest);
      RoundTrip(pair.0, v + (tail + rest));
      RoundTrip(pair.1, tail + rest);
      assert Hashable(Decoded(pair.0));
      EntriesRoundTrip(entries[1..], rest);
      LoadEntriesStep(k + (v + (tail + rest)), |entries|, Decoded(pair.0), v + (tail + rest), Decoded(pair.1), tail + rest,
                      DecodedEntries(entries[1..]), rest);
    } else {
      assert DumpEntries(entries).value + rest == rest;
    }
  }

  /** `loads(dumps(v))` gives Decoded(v) for every value `dumps` accepts. */
  lemma LoadsDumps(v: PyValue)
    requires NoFloats(v) && ScalarKeys(v)
    requires Dumps(v).Success?
    ensures Loads(Dumps(v).value) == Success(Decoded(v))
  {
    var b := Dumps(v).value;
    assert b + [] == b;
    RoundTrip(v, []);
  }

  /**
   * A dict whose first key reads back as something unhashable (a tuple or a
   * list comes back as a list, a dict as a dict) is written without
   * complaint, but reading it back raises TypeError at that key.
   */
  lemma UnhashableKeyEntries(entries: seq<(PyValue, PyValue)>, rest: seq<Byte>)
    requires NoFloatsEntries(entries) && |entries| > 0
    requires ScalarKeys(entries[0].0) && ScalarKeys(entries[0].1)
    requires !Hashable(Decoded(entries[0].0))
    requires DumpEntries(entries).Success?
    ensures LoadEntries(DumpEntries(entries).value + rest, |entries|) == Failure(UnhashableKey)
  {
    var pair := entries[0];
    var k := Dump(pair.0).value;
    var v := Dump(pair.1).value;
    var t := DumpEntries(entries[1..]).value;
    DumpEntriesCons(entries);
    Concat4(k, v, t, rest);
    RoundTrip(pair.0, v + (t + rest));
    RoundTrip(pair.1, t + rest);
  }

  lemma UnhashableKeyDict(entries: seq<(PyValue, PyValue)>, rest: seq<Byte>)
    requires NoFloatsEntries(entries) && |entries| > 0
    requires ScalarKeys(entries[0].0) && ScalarKeys(entries[0].1)
    requires !Hashable(Decoded(entries[0].0))
    requires DumpDict(entries).Success?
    ensures Load(DumpDict(entries).value + rest) == Failure(UnhashableKey)
  {
    var h := DumpUint(TAG_DICT_SMALL, TAG_DICT_LARGE, |entries|).value;
    var body := DumpEntries(entries).value;
    var b := DumpDict(entries).value;
    assert b == h + body;
    HeaderSplit(h, body, rest);
    LoadDispatch(b[0], h[1..] + (body + rest));
    UintRoundTrip(TAG_DICT_SMALL, TAG_DICT_LARGE, |entries|, body + rest);
    LoadDictBody(h[1..] + (body + rest), b[0], |entries|, body + rest);
    UnhashableKeyEntries(entries, rest);
  }

  lemma TupleKeyDictWrites()
    ensures NoFloatsEntries([(PyTuple([PyInt(1)]), PyInt(3))])
    ensures DumpDict([(PyTuple([PyInt(1)]), PyInt(3))]).Success?
  {
    var entries := [(PyTuple([PyInt(1)]), PyInt(3))];
    assert DumpItems([PyInt(1)]).Success?;
    assert Dump(PyTuple([PyInt(1)])).Success?;
    assert DumpEntries(entries[1..]) == Success([]);
  }

  /** The smallest instance: {(1,): 3} is written, and reading it back fails. */
  lemma TupleKeyDoesNotRoundTrip()
    ensures var d := PyDict([(PyTuple([PyInt(1)]), PyInt(3))]);
      Dumps(d).Success? && Loads(Dumps(d).value) == Failure(UnhashableKey)
  {
    var entries := [(PyTuple([PyInt(1)]), PyInt(3))];
    TupleKeyDictWrites();
    assert ScalarKeys(entries[0].0) && !Hashable(Decoded(entries[0].0));
    UnhashableKeyDict(entries, []);
    assert DumpDict(entries).value + [] == DumpDict(entries).value;
  }
}
