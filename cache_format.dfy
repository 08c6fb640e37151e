/**
 * The build cache file: one RBDEF dict from source path to SHA-1 digest,
 * both byte strings, written by `save_build_cache` and read back by
 * `load_build_cache` (build-server/build/build_graph.py).
 */
module CacheFormat {
  import opened Wrappers
  import opened ByteOrder
  import opened PyValues
  import opened RbdefEncode
  import opened RbdefDecode
  import opened RbdefRoundTrip

  /** Source path to digest. */
  type Cache = map<seq<Byte>, seq<Byte>>

  /** Every key and value is a byte string. */
  predicate StrPairs(entries: seq<(PyValue, PyValue)>)
  {
    forall i | 0 <= i < |entries| :: entries[i].0.PyStr? && entries[i].1.PyStr?
  }

  /** The dict these byte-string pairs build, a later pair for a key winning. */
  function PairsCache(entries: seq<(PyValue, PyValue)>): (r: Cache)
    requires StrPairs(entries)
  {
    if |entries| == 0 then map[]
    else
      var last := entries[|entries| - 1];
      PairsCache(entries[..|entries| - 1])[last.0.bytes := last.1.bytes]
  }

  /** A decoded value read as a cache: a dict of byte strings, or nothing. */
  function CacheOfValue(v: PyValue): (r: Option<Cache>)
    ensures r.Some? <==> v.PyDict? && StrPairs(v.entries)
  {
    if v.PyDict? && StrPairs(v.entries) then Some(PairsCache(v.entries)) else None
  }

  /**
   * The pairs `items()` of the dict c can yield: byte strings, each
   * holding its key's value, every key covered.
   */
  ghost predicate ItemsOf(entries: seq<(PyValue, PyValue)>, c: Cache)
  {
    StrPairs(entries) &&
    (forall i | 0 <= i < |entries| :: entries[i].0.bytes in c && c[entries[i].0.bytes] == entries[i].1.bytes) &&
    (forall k | k in c :: exists i | 0 <= i < |entries| :: entries[i].0.bytes == k)
  }

  /** Every key of the built dict comes from some pair, and every pair's key is in it. */
  lemma {:induction false} PairsCacheKeys(entries: seq<(PyValue, PyValue)>)
    requires StrPairs(entries)
    ensures forall i | 0 <= i < |entries| :: entries[i].0.bytes in PairsCache(entries)
    ensures forall k | k in PairsCache(entries) ::
      exists i | 0 <= i < |entries| :: entries[i].0.bytes == k && PairsCache(entries)[k] == entries[i].1.bytes
  {
    if |entries| > 0 {
      var init := entries[..|entries| - 1];
      assert forall i | 0 <= i < |init| :: init[i] == entries[i];
      PairsCacheKeys(init);
    }
  }

  /** Building a dict from the items of c gives c back. */
  lemma PairsCacheOfItems(entries: seq<(PyValue, PyValue)>, c: Cache)
    requires ItemsOf(entries, c)
    ensures PairsCache(entries) == c
  {
    PairsCacheKeys(entries);
    var r := PairsCache(entries);
    forall k | k in c
      ensures k in r
    {
      var i :| 0 <= i < |entries| && entries[i].0.bytes == k;
    }
  }

  /** Byte-string pairs hold no float, no container key, and decode to themselves. */
  lemma {:induction false} StrPairsEncodable(entries: seq<(PyValue, PyValue)>)
    requires StrPairs(entries)
    ensures NoFloatsEntries(entries) && ScalarKeysEntries(entries) && DecodedEntries(entries) == entries
  {
    if |entries| > 0 {
      assert StrPairs(entries[1..]) by {
        assert forall i | 0 <= i < |entries| - 1 :: entries[1..][i] == entries[i + 1];
      }
      StrPairsEncodable(entries[1..]);
      assert entries == [entries[0]] + entries[1..];
    }
  }

  /**
   * The cache file round-trips: the items of a cache, written with
   * `dump`, are read back by `load` as the same dict, which is the same
   * cache again.
   */
  lemma CacheRoundTrip(entries: seq<(PyValue, PyValue)>, c: Cache)
    requires ItemsOf(entries, c)
    ensures NoFloats(PyDict(entries))
    ensures Dumps(PyDict(entries)).Success? ==>
      Loads(Dumps(PyDict(entries)).value) == Success(PyDict(entries)) &&
      CacheOfValue(PyDict(entries)) == Some(c)
  {
    StrPairsEncodable(entries);
    PairsCacheOfItems(entries, c);
    if Dumps(PyDict(entries)).Success? {
      LoadsDumps(PyDict(entries));
    }
  }
}
