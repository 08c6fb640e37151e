/**
 * Cases of the data-format tests (tests/data_format_tests.cc), stated on
 * their exact bytes: null, true and false, both integer widths, both string
 * widths, both dictionary widths, and the integer, boolean, integer-array
 * and string-to-int dictionary conversions. A float is kept as its bit
 * pattern, so the conversions to float are stated as the narrowing of the
 * nearest double; the cases that expect a decimal float value are not
 * stated here.
 */
module DataFormatExamples {
  import opened Wrappers
  import opened ByteOrder
  import opened DataObject
  import opened Conversions
  import opened DataReader
  import opened RbdefEncode

  /** A four-byte big-endian field, digit by digit. */
  lemma DecodeFour(a: Byte, b: Byte, c: Byte, d: Byte)
    ensures DecodeUnsigned([a, b, c, d]) == ((a * 256 + b) * 256 + c) * 256 + d
  {
    assert [a, b, c, d][..3] == [a, b, c];
    assert [a, b, c][..2] == [a, b];
    assert [a, b][..1] == [a];
    assert [a][..0] == [];
    assert DecodeUnsigned([a]) == a;
    assert DecodeUnsigned([a, b]) == a * 256 + b;
    assert DecodeUnsigned([a, b, c]) == (a * 256 + b) * 256 + c;
  }

  /** A big-endian field split in two: the high part shifted past the low part. */
  lemma {:induction false} DecodeAppend(hi: seq<Byte>, lo: seq<Byte>)
    ensures DecodeUnsigned(hi + lo) == DecodeUnsigned(hi) * Pow256(|lo|) + DecodeUnsigned(lo)
    decreases |lo|
  {
    if |lo| > 0 {
      var init := lo[..|lo| - 1];
      assert (hi + lo)[..|hi + lo| - 1] == hi + init;
      DecodeAppend(hi, init);
      var last := lo[|lo| - 1];
      assert DecodeUnsigned(hi + lo) == DecodeUnsigned(hi + init) * 256 + last;
      assert DecodeUnsigned(lo) == DecodeUnsigned(init) * 256 + last;
      assert Pow256(|lo|) == 256 * Pow256(|init|);
      Regroup(DecodeUnsigned(hi), Pow256(|init|), DecodeUnsigned(init), last);
    } else {
      assert hi + lo == hi;
    }
  }

  lemma Regroup(a: int, p: int, b: int, last: int)
    ensures (a * p + b) * 256 + last == a * (256 * p) + (b * 256 + last)
  {
  }

  /** A signed field whose value fits below the sign bit reads as its unsigned value. */
  lemma NonNegativeField(field: seq<Byte>)
    requires |field| > 0 && DecodeUnsigned(field) < Pow256(|field|) / 2
    ensures DecodeSigned(field) == DecodeUnsigned(field)
  {
  }

  /** An integer tag and its field, anywhere in a source. */
  lemma IntAt(source: seq<Byte>, p: nat, width: nat, n: Int64)
    requires width == 4 || width == 8
    requires p + 1 + width <= |source|
    requires source[p] == (if width == 4 then TAG_INT32 else TAG_INT64)
    requires DecodeSigned(source[p + 1..p + 1 + width]) == n
    ensures ReadFrom(source, p) == Success((MakeInt(n), p + 1 + width))
  {
  }

  /** A float tag and its field, anywhere in a source: a Float object ending after the field. */
  lemma FloatAt(source: seq<Byte>, p: nat, width: nat)
    requires width == 4 || width == 8
    requires p + 1 + width <= |source|
    requires source[p] == (if width == 4 then TAG_FLOAT32 else TAG_FLOAT64)
    ensures ReadFrom(source, p).Success?
    ensures ReadFrom(source, p).value.0.tag == Float && ReadFrom(source, p).value.1 == p + 1 + width
  {
  }

  /** A string tag, its length field and its bytes, anywhere in a source. */
  lemma StringAt(source: seq<Byte>, p: nat, width: nat, text: seq<Byte>)
    requires width == 4 || width == 8
    requires p + 1 + width + |text| <= |source|
    requires source[p] == (if width == 4 then TAG_STR_SMALL else TAG_STR_LARGE)
    requires DecodeUnsigned(source[p + 1..p + 1 + width]) == |text|
    requires source[p + 1 + width..p + 1 + width + |text|] == text
    ensures ReadFrom(source, p) == Success((MakeString(text), p + 1 + width + |text|))
  {
    StringFieldAt(source, p + 1, width, text);
    StringScalar(source, p, width, text, p + 1 + width + |text|);
  }

  /** A string tag followed by a string field is read by the string branch. */
  lemma StringScalar(source: seq<Byte>, p: nat, width: nat, text: seq<Byte>, end: nat)
    requires width == 4 || width == 8
    requires p < |source| && source[p] == (if width == 4 then TAG_STR_SMALL else TAG_STR_LARGE)
    requires ReadString(source, p + 1, width) == Success((text, end))
    ensures ReadFrom(source, p) == Success((MakeString(text), end))
  {
    assert ReadScalar(source, p) == Success((MakeString(text), end));
  }

  /** A length field of `width` bytes and that many bytes after it. */
  lemma StringFieldAt(source: seq<Byte>, q: nat, width: nat, text: seq<Byte>)
    requires q + width + |text| <= |source|
    requires DecodeUnsigned(source[q..q + width]) == |text|
    requires source[q + width..q + width + |text|] == text
    ensures ReadString(source, q, width) == Success((text, q + width + |text|))
  {
    assert ReadUnsigned(source, q, width) == Success((|text|, q + width));
  }

  /** "n" reads as the null object. */
  lemma ReadNull()
    ensures ReadData([110]) == Success(MakeNull())
  {
  }

  /** "i\x0a\x0b\x0c\x0d" reads as the integer 0x0a0b0c0d, readable as an int and a double. */
  lemma ReadInt32()
    ensures ReadData([105, 0x0a, 0x0b, 0x0c, 0x0d]) == Success(MakeInt(0x0a0b0c0d))
    ensures Active(MakeInt(0x0a0b0c0d)) == NumberValue(0x0a0b0c0d, NearestTo(0x0a0b0c0d))
  {
    var s: seq<Byte> := [105, 0x0a, 0x0b, 0x0c, 0x0d];
    assert s[1..5] == [s[1], s[2], s[3], s[4]];
    DecodeFour(0x0a, 0x0b, 0x0c, 0x0d);
  }

  /** "I\x0a\x0b\x0c\x0d\x0e\x0f\x00\x01" reads as the integer 0x0a0b0c0d0e0f0001, held as both int64 and float64. */
  lemma ReadInt64()
    ensures ReadData([73, 0x0a, 0x0b, 0x0c, 0x0d, 0x0e, 0x0f, 0x00, 0x01]) == Success(MakeInt(0x0a0b0c0d0e0f0001))
    ensures Active(MakeInt(0x0a0b0c0d0e0f0001)) == NumberValue(0x0a0b0c0d0e0f0001, NearestTo(0x0a0b0c0d0e0f0001))
  {
    var s: seq<Byte> := [73, 0x0a, 0x0b, 0x0c, 0x0d, 0x0e, 0x0f, 0x00, 0x01];
    assert s[1..9] == [0x0a, 0x0b, 0x0c, 0x0d] + [0x0e, 0x0f, 0x00, 0x01];
    DecodeFour(0x0a, 0x0b, 0x0c, 0x0d);
    DecodeFour(0x0e, 0x0f, 0x00, 0x01);
    Pow256Values();
    DecodeAppend([0x0a, 0x0b, 0x0c, 0x0d], [0x0e, 0x0f, 0x00, 0x01]);
    NonNegativeField(s[1..9]);
    IntAt(s, 0, 8, 0x0a0b0c0d0e0f0001);
  }

  /** The same object converts to 0x0a0b0c0d as every integer type, whatever the width of `long`. */
  lemma IntConversion(longWidth: nat)
    requires longWidth == 4 || longWidth == 8
    ensures AsInt(MakeInt(0x0a0b0c0d)) == Success(0x0a0b0c0d)
    ensures AsUnsignedInt(MakeInt(0x0a0b0c0d)) == Success(0x0a0b0c0d)
    ensures AsLong(MakeInt(0x0a0b0c0d), longWidth) == Success(0x0a0b0c0d)
    ensures AsUnsignedLong(MakeInt(0x0a0b0c0d), longWidth) == Success(0x0a0b0c0d)
    ensures AsFloat(MakeInt(0x0a0b0c0d)) == Success(NarrowedFrom(NearestTo(0x0a0b0c0d)))
    ensures AsDouble(MakeInt(0x0a0b0c0d)) == Success(NearestTo(0x0a0b0c0d))
  {
    Pow256Values();
    CastsKeepInRange(0x0a0b0c0d, 4);
    CastsKeepInRange(0x0a0b0c0d, longWidth);
  }

  /** "s\0\0\0\x09test\0more": a string carries its NUL byte through. */
  lemma ReadStringWithNul()
    ensures ReadData([115, 0, 0, 0, 9, 116, 101, 115, 116, 0, 109, 111, 114, 101])
         == Success(MakeString([116, 101, 115, 116, 0, 109, 111, 114, 101]))
  {
    var s: seq<Byte> := [115, 0, 0, 0, 9, 116, 101, 115, 116, 0, 109, 111, 114, 101];
    assert s[1..5] == [0, 0, 0, 9];
    DecodeFour(0, 0, 0, 9);
    assert s[5..14] == [116, 101, 115, 116, 0, 109, 111, 114, 101];
  }

  /** "S" with an eight-byte length 9, then "test\0more": the same nine-byte string. */
  lemma ReadStringLarge()
    ensures ReadData([83, 0, 0, 0, 0, 0, 0, 0, 9, 116, 101, 115, 116, 0, 109, 111, 114, 101])
         == Success(MakeString([116, 101, 115, 116, 0, 109, 111, 114, 101]))
  {
    var s: seq<Byte> := [83, 0, 0, 0, 0, 0, 0, 0, 9, 116, 101, 115, 116, 0, 109, 111, 114, 101];
    assert s[1..9] == [0, 0, 0, 0] + [0, 0, 0, 9];
    DecodeFour(0, 0, 0, 0);
    DecodeFour(0, 0, 0, 9);
    DecodeAppend([0, 0, 0, 0], [0, 0, 0, 9]);
    assert s[9..18] == [116, 101, 115, 116, 0, 109, 111, 114, 101];
    StringAt(s, 0, 8, [116, 101, 115, 116, 0, 109, 111, 114, 101]);
  }

  // ---------------------------------------------------------------------
  // Dictionaries

  const KEY_TRUE: seq<Byte> := [116, 114, 117, 101]
  const KEY_FALSE: seq<Byte> := [102, 97, 108, 115, 101]
  const KEY_FOUR: seq<Byte> := [102, 111, 117, 114]

  /** The pairs "true": true, "false": false and "four": 4, as both dictionary tests write them. */
  const PAIR_TRUE: seq<Byte> := [115, 0, 0, 0, 4, 116, 114, 117, 101, 116]
  const PAIR_FALSE: seq<Byte> := [115, 0, 0, 0, 5, 102, 97, 108, 115, 101, 102]
  const PAIR_FOUR: seq<Byte> := [115, 0, 0, 0, 4, 102, 111, 117, 114, 105, 0, 0, 0, 4]

  /** A key written as a short string, then the bytes of its value. */
  function Pair(key: seq<Byte>, value: seq<Byte>): seq<Byte>
    requires |key| < 256
  {
    [TAG_STR_SMALL, 0, 0, 0, |key| as Byte] + key + value
  }

  /** The tag of a boolean. */
  function BoolTag(b: bool): Byte
  {
    if b then TAG_TRUE else TAG_FALSE
  }

  /** The three pairs, key by key. */
  lemma BoolPairsLayout()
    ensures PAIR_TRUE == Pair(KEY_TRUE, [BoolTag(true)]) && PAIR_FALSE == Pair(KEY_FALSE, [BoolTag(false)])
    ensures PAIR_FOUR == Pair(KEY_FOUR, [TAG_INT32, 0, 0, 0, 4])
  {
    assert PAIR_TRUE == Pair(KEY_TRUE, [BoolTag(true)]) by {
      assert PAIR_TRUE == [115, 0, 0, 0, 4] + KEY_TRUE + [TAG_TRUE];
    }
    assert PAIR_FALSE == Pair(KEY_FALSE, [BoolTag(false)]) by {
      assert PAIR_FALSE == [115, 0, 0, 0, 5] + KEY_FALSE + [TAG_FALSE];
    }
    assert PAIR_FOUR == Pair(KEY_FOUR, [TAG_INT32, 0, 0, 0, 4]) by {
      assert PAIR_FOUR == [115, 0, 0, 0, 4] + KEY_FOUR + [TAG_INT32, 0, 0, 0, 4];
    }
  }

  /** The header, the key and the value of a pair found at p, each at its own position. */
  lemma PairParts(source: seq<Byte>, p: nat, key: seq<Byte>, value: seq<Byte>)
    requires |key| < 256 && At(source, p, Pair(key, value))
    ensures At(source, p, [TAG_STR_SMALL, 0, 0, 0, |key|]) && At(source, p + 5, key) && At(source, p + 5 + |key|, value)
  {
    var pair := Pair(key, value);
    assert pair[..5] == [TAG_STR_SMALL, 0, 0, 0, |key|];
    assert pair[5..5 + |key|] == key;
    assert pair[5 + |key|..] == value;
    Window(source, p, pair, 0, 5);
    Window(source, p, pair, 5, 5 + |key|);
    Window(source, p, pair, 5 + |key|, |pair|);
  }

  /** A piece of a run of bytes found at position p of a source. */
  lemma Window(source: seq<Byte>, p: nat, whole: seq<Byte>, i: nat, j: nat)
    requires At(source, p, whole) && i <= j <= |whole|
    ensures source[p + i..p + j] == whole[i..j]
  {
    var w := source[p..p + |whole|];
    assert forall k | 0 <= k < j - i :: source[p + i..p + j][k] == w[i..j][k];
  }

  /** A boolean tag, anywhere in a source. */
  lemma BoolAt(source: seq<Byte>, p: nat, b: bool)
    requires At(source, p, [BoolTag(b)])
    ensures ReadFrom(source, p) == Success((MakeBoolean(b), p + 1))
  {
    assert source[p] == source[p..p + 1][0];
  }

  /** "i" with a four-byte field below 128, anywhere in a source. */
  lemma SmallIntAt(source: seq<Byte>, p: nat, n: nat)
    requires n < 128 && At(source, p, [TAG_INT32, 0, 0, 0, n])
    ensures ReadFrom(source, p) == Success((MakeInt(n), p + 5))
  {
    assert source[p] == source[p..p + 5][0];
    assert source[p + 1..p + 5] == source[p..p + 5][1..];
    DecodeFour(0, 0, 0, n);
    NonNegativeField(source[p + 1..p + 5]);
    IntAt(source, p, 4, n);
  }

  /** "s", a four-byte length below 256 and that many bytes, anywhere in a source. */
  lemma ShortStringAt(source: seq<Byte>, p: nat, text: seq<Byte>)
    requires |text| < 256 && At(source, p, [TAG_STR_SMALL, 0, 0, 0, |text|]) && At(source, p + 5, text)
    ensures ReadFrom(source, p) == Success((MakeString(text), p + 5 + |text|))
  {
    assert source[p] == source[p..p + 5][0];
    assert source[p + 1..p + 5] == source[p..p + 5][1..];
    DecodeFour(0, 0, 0, |text|);
    StringAt(source, p, 4, text);
  }

  /** A pass of `read_dictionary`'s loop that stores `next` and ends at `end`, followed by the passes after it. */
  lemma EntryThen(source: seq<Byte>, p: nat, k: nat, entries: map<seq<Byte>, Object>, next: map<seq<Byte>, Object>, end: nat)
    requires p <= |source| && k > 0 && ReadEntry(source, p, entries) == Success((next, end))
    ensures ReadEntries(source, p, k, entries) == ReadEntries(source, end, k - 1, next)
  {
    EntriesStep(source, p, k, entries);
  }

  /** One pass over a pair found at p, with a key not stored yet and a value that reads as `value`. */
  lemma PairAt(source: seq<Byte>, p: nat, key: seq<Byte>, v: seq<Byte>, value: Object, end: nat, k: nat, entries: map<seq<Byte>, Object>)
    requires |key| < 256 && At(source, p, Pair(key, v)) && key !in entries && k > 0
    requires ReadFrom(source, p + 5 + |key|) == Success((value, end))
    ensures ReadEntries(source, p, k, entries) == ReadEntries(source, end, k - 1, entries[key := Assigned(MakeNull(), value)])
  {
    PairParts(source, p, key, v);
    ShortStringAt(source, p, key);
    KeyThenValue(source, p, key, p + 5 + |key|, value, end, k, entries);
  }

  /** One pass over a string key not stored yet, read up to `keyEnd`, and a value read after it. */
  lemma KeyThenValue(source: seq<Byte>, p: nat, key: seq<Byte>, keyEnd: nat, value: Object, end: nat, k: nat, entries: map<seq<Byte>, Object>)
    requires ReadFrom(source, p) == Success((MakeString(key), keyEnd)) && key !in entries
    requires ReadFrom(source, keyEnd) == Success((value, end)) && k > 0
    ensures ReadEntries(source, p, k, entries) == ReadEntries(source, end, k - 1, entries[key := Assigned(MakeNull(), value)])
  {
    assert ReadEntry(source, p, entries) == Success((entries[key := Assigned(MakeNull(), value)], end));
    EntryThen(source, p, k, entries, entries[key := Assigned(MakeNull(), value)], end);
  }

  /** One pass over a pair of a short key and a boolean, found at position p of a source. */
  lemma BoolPairAt(source: seq<Byte>, p: nat, key: seq<Byte>, b: bool, k: nat, entries: map<seq<Byte>, Object>)
    requires |key| < 256 && At(source, p, Pair(key, [BoolTag(b)])) && key !in entries && k > 0
    ensures ReadEntries(source, p, k, entries)
         == ReadEntries(source, p + 6 + |key|, k - 1, entries[key := Assigned(MakeNull(), MakeBoolean(b))])
  {
    PairParts(source, p, key, [BoolTag(b)]);
    BoolAt(source, p + 5 + |key|, b);
    PairAt(source, p, key, [BoolTag(b)], MakeBoolean(b), p + 6 + |key|, k, entries);
  }

  /** One pass over a pair of a short key and a small integer, found at position p of a source. */
  lemma NumberPairAt(source: seq<Byte>, p: nat, key: seq<Byte>, n: nat, k: nat, entries: map<seq<Byte>, Object>)
    requires |key| < 256 && n < 128 && At(source, p, Pair(key, [TAG_INT32, 0, 0, 0, n])) && key !in entries && k > 0
    ensures ReadEntries(source, p, k, entries)
         == ReadEntries(source, p + 10 + |key|, k - 1, entries[key := Assigned(MakeNull(), MakeInt(n))])
  {
    PairParts(source, p, key, [TAG_INT32, 0, 0, 0, n]);
    SmallIntAt(source, p + 5 + |key|, n);
    PairAt(source, p, key, [TAG_INT32, 0, 0, 0, n], MakeInt(n), p + 10 + |key|, k, entries);
  }

  /** The three passes over the pairs, from position p of a source. */
  lemma PairsAt(source: seq<Byte>, p: nat)
    requires At(source, p, PAIR_TRUE) && At(source, p + 10, PAIR_FALSE) && At(source, p + 21, PAIR_FOUR)
    ensures ReadEntries(source, p, 3, map[]) == Success((PairsObjects(), p + 35))
  {
    BoolPairsLayout();
    var m1 := map[KEY_TRUE := Assigned(MakeNull(), MakeBoolean(true))];
    var m2 := m1[KEY_FALSE := Assigned(MakeNull(), MakeBoolean(false))];
    BoolPairAt(source, p, KEY_TRUE, true, 3, map[]);
    BoolPairAt(source, p + 10, KEY_FALSE, false, 2, m1);
    NumberPairAt(source, p + 21, KEY_FOUR, 4, 1, m2);
  }

  /** The entries the reader stores for the three pairs. */
  function PairsObjects(): map<seq<Byte>, Object>
  {
    map[KEY_TRUE := Assigned(MakeNull(), MakeBoolean(true)),
        KEY_FALSE := Assigned(MakeNull(), MakeBoolean(false)),
        KEY_FOUR := Assigned(MakeNull(), MakeInt(4))]
  }

  /** The values the dictionary tests expect, under their keys. */
  function PairsValue(): map<seq<Byte>, Value>
  {
    map[KEY_TRUE := BoolValue(true), KEY_FALSE := BoolValue(false), KEY_FOUR := NumberValue(4, NearestTo(4))]
  }

  /** A dictionary object made from those entries is a dictionary of exactly the three expected values. */
  lemma PairsDictionary()
    ensures MakeDictionary(PairsObjects()).tag == Dictionary
    ensures MakeDictionary(PairsObjects()).entries.Keys == {KEY_TRUE, KEY_FALSE, KEY_FOUR}
    ensures Active(MakeDictionary(PairsObjects())) == DictionaryValue(PairsValue())
  {
    PairsActive();
  }

  /** The active values of the stored entries are the expected values. */
  lemma PairsActive()
    ensures (map k | k in PairsObjects() :: Active(PairsObjects()[k])) == PairsValue()
  {
    var d := PairsObjects();
    var m := map k | k in d :: Active(d[k]);
    assert m.Keys == PairsValue().Keys;
    PairsEach();
    assert m == PairsValue();
  }

  /** The active value of each stored entry. */
  lemma PairsEach()
    ensures Active(PairsObjects()[KEY_TRUE]) == BoolValue(true) && Active(PairsObjects()[KEY_FALSE]) == BoolValue(false)
    ensures Active(PairsObjects()[KEY_FOUR]) == NumberValue(4, NearestTo(4))
  {
  }

  /** A four-byte count below 256 at position 1. */
  lemma CountFour(source: seq<Byte>, n: nat)
    requires n < 256 && At(source, 1, [0, 0, 0, n])
    ensures ReadUnsigned(source, 1, 4) == Success((n, 5))
  {
    DecodeFour(0, 0, 0, n);
  }

  /** An eight-byte count below 256 at position 1. */
  lemma CountEight(source: seq<Byte>, n: nat)
    requires n < 256 && At(source, 1, [0, 0, 0, 0, 0, 0, 0, n])
    ensures ReadUnsigned(source, 1, 8) == Success((n, 9))
  {
    assert source[1..9] == [0, 0, 0, 0] + [0, 0, 0, n];
    DecodeFour(0, 0, 0, 0);
    DecodeFour(0, 0, 0, n);
    DecodeAppend([0, 0, 0, 0], [0, 0, 0, n]);
  }

  /** The tag, the count and the three pairs of the small dictionary, each at its position. */
  lemma DictionarySmallLayout(source: seq<Byte>)
    requires source == [TAG_DICT_SMALL, 0, 0, 0, 3] + PAIR_TRUE + PAIR_FALSE + PAIR_FOUR
    ensures |source| == 40 && source[0] == TAG_DICT_SMALL && At(source, 1, [0, 0, 0, 3])
    ensures At(source, 5, PAIR_TRUE) && At(source, 15, PAIR_FALSE) && At(source, 26, PAIR_FOUR)
  {
  }

  /** The tag, the count and the three pairs of the large dictionary, each at its position. */
  lemma DictionaryLargeLayout(source: seq<Byte>)
    requires source == [TAG_DICT_LARGE, 0, 0, 0, 0, 0, 0, 0, 3] + PAIR_TRUE + PAIR_FALSE + PAIR_FOUR
    ensures |source| == 44 && source[0] == TAG_DICT_LARGE && At(source, 1, [0, 0, 0, 0, 0, 0, 0, 3])
    ensures At(source, 9, PAIR_TRUE) && At(source, 19, PAIR_FALSE) && At(source, 30, PAIR_FOUR)
  {
  }

  /** A dictionary tag, a count of n, then n pairs that store `objects`. */
  lemma DictionaryOf(source: seq<Byte>, width: nat, n: nat, objects: map<seq<Byte>, Object>, end: nat)
    requires (width == 4 || width == 8) && 0 < |source|
    requires source[0] == (if width == 4 then TAG_DICT_SMALL else TAG_DICT_LARGE)
    requires ReadUnsigned(source, 1, width) == Success((n, 1 + width))
    requires ReadEntries(source, 1 + width, n, map[]) == Success((objects, end))
    ensures ReadData(source) == Success(MakeDictionary(objects))
  {
    assert ReadDictionary(source, 1, width) == Success((objects, end));
    DictionaryTag(source, 0, width);
  }

  /** "d", a four-byte count 3, then the three pairs: the dictionary {"true": true, "false": false, "four": 4}. */
  lemma ReadDictionarySmall(source: seq<Byte>)
    requires source == [TAG_DICT_SMALL, 0, 0, 0, 3] + PAIR_TRUE + PAIR_FALSE + PAIR_FOUR
    ensures ReadData(source) == Success(MakeDictionary(PairsObjects()))
    ensures Active(MakeDictionary(PairsObjects())) == DictionaryValue(PairsValue())
  {
    DictionarySmallLayout(source);
    CountFour(source, 3);
    PairsAt(source, 5);
    DictionaryOf(source, 4, 3, PairsObjects(), 40);
    PairsDictionary();
  }

  /** "D", an eight-byte count 3, then the three pairs: the same dictionary. */
  lemma ReadDictionaryLarge(source: seq<Byte>)
    requires source == [TAG_DICT_LARGE, 0, 0, 0, 0, 0, 0, 0, 3] + PAIR_TRUE + PAIR_FALSE + PAIR_FOUR
    ensures ReadData(source) == Success(MakeDictionary(PairsObjects()))
    ensures Active(MakeDictionary(PairsObjects())) == DictionaryValue(PairsValue())
  {
    DictionaryLargeLayout(source);
    CountEight(source, 3);
    PairsAt(source, 9);
    DictionaryOf(source, 8, 3, PairsObjects(), 44);
    PairsDictionary();
  }

  // ---------------------------------------------------------------------
  // Conversions of containers

  /** The integers 2, 4, 6 and 8, each as "i" and a four-byte field. */
  const INTS: seq<Byte> :=
    [105, 0, 0, 0, 2, 105, 0, 0, 0, 4, 105, 0, 0, 0, 6, 105, 0, 0, 0, 8]

  /** Where the four integers of INTS lie. */
  lemma IntsLayout()
    ensures INTS[0..5] == [TAG_INT32, 0, 0, 0, 2]
    ensures INTS[5..10] == [TAG_INT32, 0, 0, 0, 4]
    ensures INTS[10..15] == [TAG_INT32, 0, 0, 0, 6]
    ensures INTS[15..20] == [TAG_INT32, 0, 0, 0, 8]
  {
    assert INTS[0..5] == [INTS[0], INTS[1], INTS[2], INTS[3], INTS[4]];
    assert INTS[5..10] == [INTS[5], INTS[6], INTS[7], INTS[8], INTS[9]];
    assert INTS[10..15] == [INTS[10], INTS[11], INTS[12], INTS[13], INTS[14]];
    assert INTS[15..20] == [INTS[15], INTS[16], INTS[17], INTS[18], INTS[19]];
  }

  /** The four objects read from INTS. */
  function IntObjects(): seq<Object>
  {
    [MakeInt(2), MakeInt(4), MakeInt(6), MakeInt(8)]
  }

  /** A pass of `read_array`'s loop over a small integer. */
  lemma IntItem(source: seq<Byte>, p: nat, n: nat, k: nat, items: seq<Object>)
    requires n < 128 && At(source, p, [TAG_INT32, 0, 0, 0, n]) && k > 0
    ensures ReadItems(source, p, k, items) == ReadItems(source, p + 5, k - 1, items + [MakeInt(n)])
  {
    SmallIntAt(source, p, n);
    ItemsStep(source, p, k, items);
  }

  /** The four passes over INTS, from position p of a source. */
  lemma IntsAt(source: seq<Byte>, p: nat)
    requires At(source, p, INTS)
    ensures ReadItems(source, p, 4, []) == Success((IntObjects(), p + 20))
  {
    assert ReadItems(source, p, 4, []) == ReadItems(source, p + 5, 3, [MakeInt(2)]) by {
      IntsLayout();
      Window(source, p, INTS, 0, 5);
      IntItem(source, p, 2, 4, []);
      assert [] + [MakeInt(2)] == [MakeInt(2)];
    }
    assert ReadItems(source, p + 5, 3, [MakeInt(2)]) == ReadItems(source, p + 10, 2, [MakeInt(2), MakeInt(4)]) by {
      IntsLayout();
      Window(source, p, INTS, 5, 10);
      IntItem(source, p + 5, 4, 3, [MakeInt(2)]);
      assert [MakeInt(2)] + [MakeInt(4)] == [MakeInt(2), MakeInt(4)];
    }
    LastIntsAt(source, p);
  }

  /** The last two passes over INTS. */
  lemma LastIntsAt(source: seq<Byte>, p: nat)
    requires At(source, p, INTS)
    ensures ReadItems(source, p + 10, 2, [MakeInt(2), MakeInt(4)]) == Success((IntObjects(), p + 20))
  {
    IntsLayout();
    Window(source, p, INTS, 10, 15);
    Window(source, p, INTS, 15, 20);
    IntItem(source, p + 10, 6, 2, [MakeInt(2), MakeInt(4)]);
    assert [MakeInt(2), MakeInt(4)] + [MakeInt(6)] == [MakeInt(2), MakeInt(4), MakeInt(6)];
    IntItem(source, p + 15, 8, 1, [MakeInt(2), MakeInt(4), MakeInt(6)]);
    assert [MakeInt(2), MakeInt(4), MakeInt(6)] + [MakeInt(8)] == IntObjects();
  }

  /** The array's elements are copies of the objects read, which are those objects themselves. */
  lemma IntArrayElements()
    ensures MakeArray(IntObjects()).elements == IntObjects()
  {
    var items := IntObjects();
    var copied := MakeArray(items).elements;
    CopyOfCanonical(MakeInt(2));
    CopyOfCanonical(MakeInt(4));
    CopyOfCanonical(MakeInt(6));
    CopyOfCanonical(MakeInt(8));
    assert forall i | 0 <= i < 4 :: copied[i] == items[i];
  }

  /**
   * "a", a four-byte count 4, then INTS: converts to the vector 2, 4, 6, 8
   * as `int`, and to the floats nearest those integers as `float`.
   */
  lemma HomogenousIntArrayConversion(source: seq<Byte>)
    requires source == [TAG_ARRAY_SMALL, 0, 0, 0, 4] + INTS
    ensures ReadData(source) == Success(MakeArray(IntObjects()))
    ensures AsVector(MakeArray(IntObjects()), AsInt) == Success([2, 4, 6, 8])
    ensures AsVector(MakeArray(IntObjects()), AsFloat)
         == Success([NarrowedFrom(NearestTo(2)), NarrowedFrom(NearestTo(4)), NarrowedFrom(NearestTo(6)), NarrowedFrom(NearestTo(8))])
  {
    assert At(source, 5, INTS);
    assert source[1..5] == [0, 0, 0, 4];
    DecodeFour(0, 0, 0, 4);
    IntsAt(source, 5);
    ArrayTag(source, 0, 4);
    IntArrayElements();
    IntsConvert();
    FloatsConvert();
  }

  /** Each of the four objects converts as `int`. */
  lemma IntsConvert()
    ensures ConvertedItems(IntObjects(), AsInt) == Success([2, 4, 6, 8])
  {
    var a, b, c, d := MakeInt(2), MakeInt(4), MakeInt(6), MakeInt(8);
    MadeIntConverts(2);
    MadeIntConverts(4);
    MadeIntConverts(6);
    MadeIntConverts(8);
    ConvertedCons(d, [], AsInt);
    assert [d] + [] == [d] && [8] + [] == [8];
    ConvertedCons(c, [d], AsInt);
    assert [c] + [d] == [c, d] && [6] + [8] == [6, 8];
    ConvertedCons(b, [c, d], AsInt);
    assert [b] + [c, d] == [b, c, d] && [4] + [6, 8] == [4, 6, 8];
    ConvertedCons(a, [b, c, d], AsInt);
    assert [a] + [b, c, d] == IntObjects() && [2] + [4, 6, 8] == [2, 4, 6, 8];
  }

  /** Each of the four objects converts as `float`, to the float nearest the integer. */
  lemma FloatsConvert()
    ensures ConvertedItems(IntObjects(), AsFloat)
         == Success([NarrowedFrom(NearestTo(2)), NarrowedFrom(NearestTo(4)), NarrowedFrom(NearestTo(6)), NarrowedFrom(NearestTo(8))])
  {
    var a, b, c, d := MakeInt(2), MakeInt(4), MakeInt(6), MakeInt(8);
    var fa, fb, fc, fd := NarrowedFrom(NearestTo(2)), NarrowedFrom(NearestTo(4)), NarrowedFrom(NearestTo(6)), NarrowedFrom(NearestTo(8));
    MadeIntConverts(2);
    MadeIntConverts(4);
    MadeIntConverts(6);
    MadeIntConverts(8);
    ConvertedCons(d, [], AsFloat);
    assert [d] + [] == [d] && [fd] + [] == [fd];
    ConvertedCons(c, [d], AsFloat);
    assert [c] + [d] == [c, d] && [fc] + [fd] == [fc, fd];
    ConvertedCons(b, [c, d], AsFloat);
    assert [b] + [c, d] == [b, c, d] && [fb] + [fc, fd] == [fb, fc, fd];
    ConvertedCons(a, [b, c, d], AsFloat);
    assert [a] + [b, c, d] == IntObjects() && [fa] + [fb, fc, fd] == [fa, fb, fc, fd];
  }

  /** Converting a sequence whose head and tail convert gives the head's value, then the tail's. */
  lemma ConvertedCons<T>(o: Object, rest: seq<Object>, elem: Object -> Result<T, ConvertError>)
    requires elem(o).Success? && ConvertedItems(rest, elem).Success?
    ensures ConvertedItems([o] + rest, elem) == Success([elem(o).value] + ConvertedItems(rest, elem).value)
  {
    assert ([o] + rest)[0] == o && ([o] + rest)[1..] == rest;
  }

  const KEY_TWO: seq<Byte> := [116, 119, 111]
  const KEY_SIX: seq<Byte> := [115, 105, 120]
  const KEY_ONE: seq<Byte> := [111, 110, 101]
  const KEY_TEN: seq<Byte> := [116, 101, 110]

  /** The pairs "two": 2, "six": 6, "one": 1 and "ten": 10, each an "s" key and an "i" value. */
  const PAIR_TWO: seq<Byte> := [115, 0, 0, 0, 3, 116, 119, 111, 105, 0, 0, 0, 2]
  const PAIR_SIX: seq<Byte> := [115, 0, 0, 0, 3, 115, 105, 120, 105, 0, 0, 0, 6]
  const PAIR_ONE: seq<Byte> := [115, 0, 0, 0, 3, 111, 110, 101, 105, 0, 0, 0, 1]
  const PAIR_TEN: seq<Byte> := [115, 0, 0, 0, 3, 116, 101, 110, 105, 0, 0, 0, 10]

  /** The four pairs, key by key. */
  lemma NumberLayout()
    ensures PAIR_TWO == Pair(KEY_TWO, [TAG_INT32, 0, 0, 0, 2]) && PAIR_SIX == Pair(KEY_SIX, [TAG_INT32, 0, 0, 0, 6])
    ensures PAIR_ONE == Pair(KEY_ONE, [TAG_INT32, 0, 0, 0, 1]) && PAIR_TEN == Pair(KEY_TEN, [TAG_INT32, 0, 0, 0, 10])
  {
    assert PAIR_TWO == [115, 0, 0, 0, 3] + KEY_TWO + [TAG_INT32, 0, 0, 0, 2];
    assert PAIR_SIX == [115, 0, 0, 0, 3] + KEY_SIX + [TAG_INT32, 0, 0, 0, 6];
    assert PAIR_ONE == [115, 0, 0, 0, 3] + KEY_ONE + [TAG_INT32, 0, 0, 0, 1];
    assert PAIR_TEN == [115, 0, 0, 0, 3] + KEY_TEN + [TAG_INT32, 0, 0, 0, 10];
  }

  /** The entries the reader stores for the four pairs. */
  function NumberObjects(): map<seq<Byte>, Object>
  {
    map[KEY_TWO := Assigned(MakeNull(), MakeInt(2)), KEY_SIX := Assigned(MakeNull(), MakeInt(6)),
        KEY_ONE := Assigned(MakeNull(), MakeInt(1)), KEY_TEN := Assigned(MakeNull(), MakeInt(10))]
  }

  /** The four passes over the pairs, from position p of a source. */
  lemma NumberPairsAt(source: seq<Byte>, p: nat)
    requires At(source, p, PAIR_TWO) && At(source, p + 13, PAIR_SIX)
    requires At(source, p + 26, PAIR_ONE) && At(source, p + 39, PAIR_TEN)
    ensures ReadEntries(source, p, 4, map[]) == Success((NumberObjects(), p + 52))
  {
    FirstNumberPairs(source, p);
    LastNumberPairs(source, p);
  }

  /** The first two passes store "two" and "six". */
  lemma FirstNumberPairs(source: seq<Byte>, p: nat)
    requires At(source, p, PAIR_TWO) && At(source, p + 13, PAIR_SIX)
    ensures ReadEntries(source, p, 4, map[])
         == ReadEntries(source, p + 26, 2, map[KEY_TWO := Assigned(MakeNull(), MakeInt(2)), KEY_SIX := Assigned(MakeNull(), MakeInt(6))])
  {
    NumberLayout();
    NumberPairAt(source, p, KEY_TWO, 2, 4, map[]);
    NumberPairAt(source, p + 13, KEY_SIX, 6, 3, map[KEY_TWO := Assigned(MakeNull(), MakeInt(2))]);
  }

  /** The last two passes store "one" and "ten". */
  lemma LastNumberPairs(source: seq<Byte>, p: nat)
    requires At(source, p + 26, PAIR_ONE) && At(source, p + 39, PAIR_TEN)
    ensures ReadEntries(source, p + 26, 2, map[KEY_TWO := Assigned(MakeNull(), MakeInt(2)), KEY_SIX := Assigned(MakeNull(), MakeInt(6))])
         == Success((NumberObjects(), p + 52))
  {
    NumberLayout();
    var m2 := map[KEY_TWO := Assigned(MakeNull(), MakeInt(2)), KEY_SIX := Assigned(MakeNull(), MakeInt(6))];
    NumberPairAt(source, p + 26, KEY_ONE, 1, 2, m2);
    NumberPairAt(source, p + 39, KEY_TEN, 10, 1, m2[KEY_ONE := Assigned(MakeNull(), MakeInt(1))]);
  }

  /** The mapping the test expects. */
  function NumberMapping(): map<seq<Byte>, int>
  {
    map[KEY_ONE := 1, KEY_TWO := 2, KEY_SIX := 6, KEY_TEN := 10]
  }

  /** The tag, the count and the four pairs of the number dictionary, each at its position. */
  lemma NumberDictionaryLayout(source: seq<Byte>)
    requires source == [TAG_DICT_SMALL, 0, 0, 0, 4] + PAIR_TWO + PAIR_SIX + PAIR_ONE + PAIR_TEN
    ensures |source| == 57 && source[0] == TAG_DICT_SMALL && At(source, 1, [0, 0, 0, 4])
    ensures At(source, 5, PAIR_TWO) && At(source, 18, PAIR_SIX) && At(source, 31, PAIR_ONE) && At(source, 44, PAIR_TEN)
  {
  }

  /**
   * "d", a four-byte count 4, then the four pairs: converts to the map
   * {"one": 1, "two": 2, "six": 6, "ten": 10} of `int`.
   */
  lemma StringNumberDictionary(source: seq<Byte>)
    requires source == [TAG_DICT_SMALL, 0, 0, 0, 4] + PAIR_TWO + PAIR_SIX + PAIR_ONE + PAIR_TEN
    ensures ReadData(source) == Success(MakeDictionary(NumberObjects()))
    ensures AsMap(MakeDictionary(NumberObjects()), AsInt) == Success(NumberMapping())
  {
    NumberDictionaryLayout(source);
    CountFour(source, 4);
    NumberPairsAt(source, 5);
    DictionaryOf(source, 4, 4, NumberObjects(), 57);
    NumbersConvert();
  }

  /** Every stored value converts to its integer as `int`. */
  lemma NumbersConvert()
    ensures AsMap(MakeDictionary(NumberObjects()), AsInt) == Success(NumberMapping())
  {
    var o := MakeDictionary(NumberObjects());
    StoredIntConverts(o, KEY_ONE, 1);
    StoredIntConverts(o, KEY_TWO, 2);
    StoredIntConverts(o, KEY_SIX, 6);
    StoredIntConverts(o, KEY_TEN, 10);
    assert o.entries.Keys == NumberMapping().Keys;
    ConvertsToMapping(o);
  }

  /** A dictionary with the four keys, each converting to its integer, converts to the mapping. */
  lemma ConvertsToMapping(o: Object)
    requires o.tag == Dictionary && o.entries.Keys == NumberMapping().Keys
    requires AsInt(o.entries[KEY_ONE]) == Success(1) && AsInt(o.entries[KEY_TWO]) == Success(2)
    requires AsInt(o.entries[KEY_SIX]) == Success(6) && AsInt(o.entries[KEY_TEN]) == Success(10)
    ensures AsMap(o, AsInt) == Success(NumberMapping())
  {
    var elem: Object -> Result<int, ConvertError> := AsInt;
    assert forall k | k in o.entries :: elem(o.entries[k]) == Success(NumberMapping()[k]);
    assert (map k | k in o.entries :: elem(o.entries[k]).value) == NumberMapping();
  }

  /** The copy made by `make_dictionary` of a stored small integer converts to that integer. */
  lemma StoredIntConverts(o: Object, key: seq<Byte>, n: nat)
    requires o == MakeDictionary(NumberObjects()) && key in NumberObjects()
    requires n < 128 && NumberObjects()[key] == Assigned(MakeNull(), MakeInt(n))
    ensures AsInt(o.entries[key]) == Success(n)
  {
    var c := o.entries[key];
    assert Active(c) == Active(MakeInt(n));
    Pow256Values();
    CastsKeepInRange(n, 4);
  }

  /** "t" and "f" read and convert as the booleans they name. */
  lemma BoolConversion()
    ensures ReadData([116]) == Success(MakeBoolean(true)) && AsBool(MakeBoolean(true)) == Success(true)
    ensures ReadData([102]) == Success(MakeBoolean(false)) && AsBool(MakeBoolean(false)) == Success(false)
  {
  }
}
