/**
 * The RBDEF decoder (build-server/rbdef/decode.py). `load` reads one
 * discriminator byte from a read cursor and then exactly that value's
 * payload. The specification functions thread the cursor position
 * explicitly; `ByteStream` is the stateful cursor itself.
 */
module RbdefDecode {
  import opened Wrappers
  import opened ByteOrder
  import opened PyValues
  import opened RbdefEncode

  datatype DecodeError =
    /** ValueError: the discriminator read (empty at end of input) is not a known tag. */
    | UnknownDiscriminator(read: seq<Byte>)
    /** struct.error: fewer bytes left than a fixed-width field needs. */
    | StructError
    /** TypeError: a decoded dict key is a list or a dict. */
    | UnhashableKey

  function Min(a: nat, b: nat): nat { if a <= b then a else b }

  /** `fp.read(n)` on the unread bytes: up to n of them, fewer at the end of the data. */
  function Read(input: seq<Byte>, n: nat): (r: (seq<Byte>, seq<Byte>))
    ensures r.0 + r.1 == input
    ensures |r.0| == Min(n, |input|)
  {
    var k := Min(n, |input|);
    (input[..k], input[k..])
  }

  /** `_unpack_read` of an unsigned field ('>I', or '>Q' when large). */
  function LoadUint(input: seq<Byte>, large: bool): (r: Result<(nat, seq<Byte>), DecodeError>)
    ensures var w := if large then 8 else 4;
      (r.Success? <==> w <= |input|) &&
      (r.Success? ==> r.value == (DecodeUnsigned(input[..w]), input[w..])) &&
      (r.Failure? ==> r.error == StructError)
  {
    var w := if large then 8 else 4;
    var (buf, rest) := Read(input, w);
    if |buf| == w then Success((DecodeUnsigned(buf), rest)) else Failure(StructError)
  }

  /** `_load_int`: '>i' for 'i', '>q' otherwise. */
  function LoadInt(input: seq<Byte>, dsc: Byte): (r: Result<(PyValue, seq<Byte>), DecodeError>)
    ensures var w := if dsc == TAG_INT32 then 4 else 8;
      (r.Success? <==> w <= |input|) &&
      (r.Success? ==> r.value == (PyInt(DecodeSigned(input[..w])), input[w..]))
  {
    var w := if dsc == TAG_INT32 then 4 else 8;
    var (buf, rest) := Read(input, w);
    if |buf| == w then Success((PyInt(DecodeSigned(buf)), rest)) else Failure(StructError)
  }

  /** `_load_float`: 4 bytes for 'p', 8 otherwise, kept uninterpreted. */
  function LoadFloat(input: seq<Byte>, dsc: Byte): (r: Result<(PyValue, seq<Byte>), DecodeError>)
    ensures var w := if dsc == TAG_FLOAT32 then 4 else 8;
      (r.Success? <==> w <= |input|) &&
      (r.Success? ==> r.value == (PyFloat(input[..w]), input[w..]))
  {
    var w := if dsc == TAG_FLOAT32 then 4 else 8;
    var (buf, rest) := Read(input, w);
    if |buf| == w then Success((PyFloat(buf), rest)) else Failure(StructError)
  }

  /** `_load_str`: a length, then up to that many bytes (a truncated string is returned short). */
  function LoadStr(input: seq<Byte>, dsc: Byte): (r: Result<(PyValue, seq<Byte>), DecodeError>)
    ensures var size := LoadUint(input, dsc == TAG_STR_LARGE);
      (r.Success? <==> size.Success?) &&
      (r.Success? ==> var (n, after) := size.value;
        r.value == (PyStr(Read(after, n).0), Read(after, n).1))
  {
    var (n, after) :- LoadUint(input, dsc == TAG_STR_LARGE);
    var (bytes, rest) := Read(after, n);
    Success((PyStr(bytes), rest))
  }

  /** `load`: dispatch on the first byte; `read(1)` at the end gives b'' and an unknown discriminator. */
  function Load(input: seq<Byte>): (r: Result<(PyValue, seq<Byte>), DecodeError>)
    ensures r.Success? ==> |r.value.1| < |input|
    decreases |input|, 0
  {
    var (b, rest) := Read(input, 1);
    if |b| == 0 then Failure(UnknownDiscriminator(b))
    else
      var dsc := b[0];
      if dsc == TAG_NULL then Success((PyNone, rest))
      else if dsc == TAG_FALSE then Success((PyBool(false), rest))
      else if dsc == TAG_TRUE then Success((PyBool(true), rest))
      else if dsc == TAG_INT32 || dsc == TAG_INT64 then LoadInt(rest, dsc)
      else if dsc == TAG_FLOAT32 || dsc == TAG_FLOAT64 then LoadFloat(rest, dsc)
      else if dsc == TAG_STR_SMALL || dsc == TAG_STR_LARGE then LoadStr(rest, dsc)
      else if dsc == TAG_ARRAY_SMALL || dsc == TAG_ARRAY_LARGE then LoadArray(rest, dsc)
      else if dsc == TAG_DICT_SMALL || dsc == TAG_DICT_LARGE then LoadDict(rest, dsc)
      else Failure(UnknownDiscriminator(b))
  }

  /** `_load_array`: a count ('A' for the large form), then that many values. */
  function LoadArray(input: seq<Byte>, dsc: Byte): (r: Result<(PyValue, seq<Byte>), DecodeError>)
    ensures r.Success? ==> |r.value.1| <= |input| && r.value.0.PyList?
    decreases |input|, 2
  {
    var (n, after) :- LoadUint(input, dsc == TAG_ARRAY_LARGE);
    var (items, rest) :- LoadItems(after, n);
    Success((PyList(items), rest))
  }

  /** `_load_dict`: a count ('D' for the large form), then that many key/value pairs. */
  function LoadDict(input: seq<Byte>, dsc: Byte): (r: Result<(PyValue, seq<Byte>), DecodeError>)
    ensures r.Success? ==> |r.value.1| <= |input| && r.value.0.PyDict?
    decreases |input|, 2
  {
    var (n, after) :- LoadUint(input, dsc == TAG_DICT_LARGE);
    var (entries, rest) :- LoadEntries(after, n);
    Success((PyDict(entries), rest))
  }

  /** `[load(fp) for _ in range(n)]`: n values, each starting where the previous ended. */
  function LoadItems(input: seq<Byte>, n: nat): (r: Result<(seq<PyValue>, seq<Byte>), DecodeError>)
    ensures r.Success? ==> |r.value.0| == n && |r.value.1| <= |input|
    decreases |input|, 1
  {
    if n == 0 then Success(([], input))
    else
      var (head, after) :- Load(input);
      var (tail, rest) :- LoadItems(after, n - 1);
      Success(([head] + tail, rest))
  }

  /**
   * `dict((load(fp), load(fp)) for _ in range(n))`: a key and then its value,
   * n times; inserting a list or dict key raises TypeError.
   */
  function LoadEntries(input: seq<Byte>, n: nat): (r: Result<(seq<(PyValue, PyValue)>, seq<Byte>), DecodeError>)
    ensures r.Success? ==> |r.value.0| == n && |r.value.1| <= |input|
    ensures r.Success? ==> forall i | 0 <= i < n :: Hashable(r.value.0[i].0)
    decreases |input|, 1
  {
    if n == 0 then Success(([], input))
    else
      var (key, afterKey) :- Load(input);
      var (value, afterValue) :- Load(afterKey);
      if !Hashable(key) then Failure(UnhashableKey)
      else
        var (tail, rest) :- LoadEntries(afterValue, n - 1);
        Success(([(key, value)] + tail, rest))
  }

  /** `loads`: load one value from the start of b (trailing bytes are not examined). */
  function Loads(b: seq<Byte>): (r: Result<PyValue, DecodeError>)
    ensures r.Success? <==> Load(b).Success?
    ensures r.Success? ==> r.value == Load(b).value.0
  {
    var (v, _) :- Load(b);
    Success(v)
  }

  /** The first byte alone selects the reader; each reader starts right after it. */
  lemma LoadDispatch(dsc: Byte, rest: seq<Byte>)
    ensures Load([dsc] + rest) ==
        if dsc == TAG_NULL then Success((PyNone, rest))
        else if dsc == TAG_FALSE then Success((PyBool(false), rest))
        else if dsc == TAG_TRUE then Success((PyBool(true), rest))
        else if dsc == TAG_INT32 || dsc == TAG_INT64 then LoadInt(rest, dsc)
        else if dsc == TAG_FLOAT32 || dsc == TAG_FLOAT64 then LoadFloat(rest, dsc)
        else if dsc == TAG_STR_SMALL || dsc == TAG_STR_LARGE then LoadStr(rest, dsc)
        else if dsc == TAG_ARRAY_SMALL || dsc == TAG_ARRAY_LARGE then LoadArray(rest, dsc)
        else if dsc == TAG_DICT_SMALL || dsc == TAG_DICT_LARGE then LoadDict(rest, dsc)
        else Failure(UnknownDiscriminator([dsc]))
  {
    var input := [dsc] + rest;
    assert input[..1] == [dsc] && input[1..] == rest;
  }

  /** After its count, a dict reads exactly its pairs and fails as they fail. */
  lemma LoadDictBody(input: seq<Byte>, dsc: Byte, n: nat, after: seq<Byte>)
    requires LoadUint(input, dsc == TAG_DICT_LARGE) == Success((n, after))
    ensures var body := LoadEntries(after, n);
      LoadDict(input, dsc) ==
        if body.Failure? then Failure(body.error) else Success((PyDict(body.value.0), body.value.1))
  {
  }

  /** On empty input `read(1)` returns b'' and `load` raises ValueError. */
  lemma LoadAtEnd()
    ensures Load([]) == Failure(UnknownDiscriminator([]))
  {
  }

  /** One value, then the remaining n - 1 starting where it ended. */
  lemma LoadItemsStep(input: seq<Byte>, n: nat, v: PyValue, after: seq<Byte>, tail: seq<PyValue>, rest: seq<Byte>)
    requires n > 0
    requires Load(input) == Success((v, after))
    requires LoadItems(after, n - 1) == Success((tail, rest))
    ensures LoadItems(input, n) == Success(([v] + tail, rest))
  {
  }

  /** A hashable key, its value, then the remaining n - 1 pairs. */
  lemma LoadEntriesStep(input: seq<Byte>, n: nat, k: PyValue, afterKey: seq<Byte>, v: PyValue, afterValue: seq<Byte>,
                        tail: seq<(PyValue, PyValue)>, rest: seq<Byte>)
    requires n > 0
    requires Load(input) == Success((k, afterKey))
    requires Load(afterKey) == Success((v, afterValue))
    requires Hashable(k)
    requires LoadEntries(afterValue, n - 1) == Success((tail, rest))
    ensures LoadEntries(input, n) == Success(([(k, v)] + tail, rest))
  {
  }
}
