/**
 * The Python 2 values that the RBDEF codec writes and reads back.
 */
module PyValues {
  import opened Wrappers
  import opened ByteOrder

  type CodePoint = c: int | 0 <= c < 0x11_0000

  datatype PyValue =
    | PyNone
    | PyBool(b: bool)
    /** A Python 2 `int` (a machine word; `bool` is a subclass, tested first). */
    | PyInt(i: int)
    /** A Python 2 `long`: not an instance of `int`. */
    | PyLong(l: int)
    /** A float, kept as its raw big-endian IEEE bytes and never interpreted. */
    | PyFloat(raw: seq<Byte>)
    /** A Python 2 `str`, i.e. a byte string. */
    | PyStr(bytes: seq<Byte>)
    | PyUnicode(text: seq<CodePoint>)
    | PyList(items: seq<PyValue>)
    | PyTuple(items: seq<PyValue>)
    /** A dict, given by its `items()` pairs in iteration order. */
    | PyDict(entries: seq<(PyValue, PyValue)>)
    /** Any object of another type. */
    | PyOther

  /** Whether Python can use v as a dict key: lists and dicts cannot be hashed. */
  predicate Hashable(v: PyValue)
  {
    match v
    case PyList(_) => false
    case PyDict(_) => false
    case PyTuple(items) => forall i | 0 <= i < |items| :: Hashable(items[i])
    case _ => true
  }

  /** The numeric value of a bool, int or long; a bool compares as 0 or 1. */
  function NumericValue(v: PyValue): int
    requires v.PyBool? || v.PyInt? || v.PyLong?
  {
    match v
    case PyBool(b) => if b then 1 else 0
    case PyInt(i) => i
    case PyLong(l) => l
  }

  /**
   * Python key equality as a dict uses it: bools and integers compare by
   * numeric value (True == 1), everything else structurally.
   */
  predicate SameKey(a: PyValue, b: PyValue)
  {
    if (a.PyBool? || a.PyInt? || a.PyLong?) && (b.PyBool? || b.PyInt? || b.PyLong?)
    then NumericValue(a) == NumericValue(b)
    else a == b
  }

  /** The value a dict built from these pairs holds for key: the last matching pair wins. */
  function DictGet(entries: seq<(PyValue, PyValue)>, key: PyValue): (r: Option<PyValue>)
    ensures r.Some? <==> exists i | 0 <= i < |entries| :: SameKey(entries[i].0, key)
    ensures r.Some? ==> exists i | 0 <= i < |entries| :: SameKey(entries[i].0, key) && r.value == entries[i].1
  {
    if |entries| == 0 then None
    else
      var last := entries[|entries| - 1];
      if SameKey(last.0, key) then Some(last.1)
      else
        var r := DictGet(entries[..|entries| - 1], key);
        assert forall i | 0 <= i < |entries| - 1 :: entries[..|entries| - 1][i] == entries[i];
        r
  }

  /** The last pair for a key decides, whatever came before it. */
  lemma {:induction false} LaterDuplicateWins(entries: seq<(PyValue, PyValue)>, key: PyValue, value: PyValue)
    ensures DictGet(entries + [(key, value)], key) == Some(value)
  {
    var e := entries + [(key, value)];
    assert e[|e| - 1] == (key, value);
    if key.PyBool? || key.PyInt? || key.PyLong? {
      assert NumericValue(key) == NumericValue(key);
    }
    assert SameKey(key, key);
  }

  /** Pairs whose key differs from key do not change the lookup. */
  lemma {:induction false} OtherKeysDoNotMatter(entries: seq<(PyValue, PyValue)>, k: PyValue, v: PyValue, key: PyValue)
    requires !SameKey(k, key)
    ensures DictGet(entries + [(k, v)], key) == DictGet(entries, key)
  {
    var e := entries + [(k, v)];
    assert e[..|e| - 1] == entries;
  }

  /** UTF-8 encoding of one code point (surrogates are encoded like any other code point, as Python 2 does). */
  function Utf8Char(c: CodePoint): (r: seq<Byte>)
    ensures 1 <= |r| <= 4
    ensures |r| == 1 <==> c < 0x80
    ensures |r| == 1 ==> r[0] == c
  {
    if c < 0x80 then [c]
    else if c < 0x800 then [0xC0 + c / 64, 0x80 + c % 64]
    else if c < 0x1_0000 then [0xE0 + c / 4096, 0x80 + (c / 64) % 64, 0x80 + c % 64]
    else [0xF0 + c / 262144, 0x80 + (c / 4096) % 64, 0x80 + (c / 64) % 64, 0x80 + c % 64]
  }

  /** UTF-8 encoding of a text, code point by code point. */
  function Utf8(text: seq<CodePoint>): (r: seq<Byte>)
    ensures |r| >= |text|
    ensures (forall i | 0 <= i < |text| :: text[i] < 0x80) ==> r == text
  {
    if |text| == 0 then [] else Utf8Char(text[0]) + Utf8(text[1..])
  }
}
