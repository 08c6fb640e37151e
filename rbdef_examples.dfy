/**
 * The doctests of the RBDEF encoder and decoder, stated on their exact
 * bytes. Literal strings are unicode there (`unicode_literals`), so 'x'
 * is written through its UTF-8 encoding and read back as the byte
 * string b'x'.
 */
module RbdefExamples {
  import opened Wrappers
  import opened ByteOrder
  import opened PyValues
  import opened RbdefEncode
  import opened RbdefDecode
  import opened RbdefRoundTrip
  import DataFormatExamples

  /** The field that decodes to n is the one EncodeUnsigned writes for n. */
  lemma FieldOf(n: nat, s: seq<Byte>)
    requires DecodeUnsigned(s) == n
    ensures n < Pow256(|s|) && EncodeUnsigned(n, |s|) == s
  {
    EncodeDecodeUnsigned(s);
  }

  /** An eight-byte big-endian field, digit by digit. */
  lemma DecodeEight(a: Byte, b: Byte, c: Byte, d: Byte, e: Byte, f: Byte, g: Byte, h: Byte)
    ensures DecodeUnsigned([a, b, c, d, e, f, g, h]) ==
      ((((((a * 256 + b) * 256 + c) * 256 + d) * 256 + e) * 256 + f) * 256 + g) * 256 + h
  {
    DataFormatExamples.DecodeFour(a, b, c, d);
    var v4 := ((a * 256 + b) * 256 + c) * 256 + d;
    assert [a, b, c, d, e][..4] == [a, b, c, d];
    assert DecodeUnsigned([a, b, c, d, e]) == v4 * 256 + e;
    assert [a, b, c, d, e, f][..5] == [a, b, c, d, e];
    assert DecodeUnsigned([a, b, c, d, e, f]) == (v4 * 256 + e) * 256 + f;
    assert [a, b, c, d, e, f, g][..6] == [a, b, c, d, e, f];
    assert DecodeUnsigned([a, b, c, d, e, f, g]) == ((v4 * 256 + e) * 256 + f) * 256 + g;
    assert [a, b, c, d, e, f, g, h][..7] == [a, b, c, d, e, f, g];
  }

  /** A non-negative integer below 2^31 is written as 'i' and its four-byte field. */
  lemma Int32Field(n: int, field: seq<Byte>)
    requires 0 <= n < TWO_31 && |field| == 4 && DecodeUnsigned(field) == n
    ensures Dump(PyInt(n)) == Success([TAG_INT32] + field)
  {
    FieldOf(n, field);
  }

  /** A non-negative integer in [2^31, 2^63) is written as 'I' and its eight-byte field. */
  lemma Int64Field(n: int, field: seq<Byte>)
    requires TWO_31 <= n < TWO_63 && |field| == 8 && DecodeUnsigned(field) == n
    ensures Dump(PyInt(n)) == Success([TAG_INT64] + field)
  {
    FieldOf(n, field);
    Pow256Values();
  }

  /** A count or length below 256 in the four-byte form. */
  lemma SmallField(n: Byte)
    ensures EncodeUnsigned(n, 4) == [0, 0, 0, n]
  {
    DataFormatExamples.DecodeFour(0, 0, 0, n);
    FieldOf(n, [0, 0, 0, n]);
  }

  /** A byte string shorter than 256 bytes: 's', its length in four bytes, the bytes. */
  lemma ShortStr(bytes: seq<Byte>)
    requires |bytes| < 256
    ensures DumpStr(bytes) == Success([TAG_STR_SMALL, 0, 0, 0, |bytes|] + bytes)
  {
    SmallCount(TAG_STR_SMALL, TAG_STR_LARGE, |bytes|);
  }

  /** dumps(None) == b'n', dumps(False) == b'f', dumps(True) == b't'. */
  lemma ScalarDoctests()
    ensures Dumps(PyNone) == Success([110])
    ensures Dumps(PyBool(false)) == Success([102])
    ensures Dumps(PyBool(true)) == Success([116])
  {
  }

  /** dumps(0x0a0b0c0d) == b'i\x0a\x0b\x0c\x0d'. */
  lemma Int32Doctest()
    ensures Dumps(PyInt(0x0a0b0c0d)) == Success([105, 0x0a, 0x0b, 0x0c, 0x0d])
  {
    DataFormatExamples.DecodeFour(0x0a, 0x0b, 0x0c, 0x0d);
    Int32Field(0x0a0b0c0d, [0x0a, 0x0b, 0x0c, 0x0d]);
    assert [TAG_INT32] + [0x0a, 0x0b, 0x0c, 0x0d] == [105, 0x0a, 0x0b, 0x0c, 0x0d];
  }

  /** dumps(0x0a0b0c0d0e0f0001) == b'I\x0a\x0b\x0c\x0d\x0e\x0f\x00\x01'. */
  lemma Int64Doctest()
    ensures Dumps(PyInt(0x0a0b0c0d0e0f0001)) == Success([73, 0x0a, 0x0b, 0x0c, 0x0d, 0x0e, 0x0f, 0x00, 0x01])
  {
    var field: seq<Byte> := [0x0a, 0x0b, 0x0c, 0x0d, 0x0e, 0x0f, 0x00, 0x01];
    DecodeEight(0x0a, 0x0b, 0x0c, 0x0d, 0x0e, 0x0f, 0x00, 0x01);
    Int64Field(0x0a0b0c0d0e0f0001, field);
    assert [TAG_INT64] + field == [73, 0x0a, 0x0b, 0x0c, 0x0d, 0x0e, 0x0f, 0x00, 0x01];
  }

  /** A length or count below 256 in its four-byte form. */
  lemma SmallCount(small: Byte, large: Byte, n: Byte)
    ensures DumpUint(small, large, n) == Success([small, 0, 0, 0, n])
  {
    SmallField(n);
    Pow256Values();
    assert n < TWO_32;
    assert DumpUint(small, large, n) == Success([small] + EncodeUnsigned(n, 4));
    assert [small] + EncodeUnsigned(n, 4) == [small, 0, 0, 0, n];
  }

  /** 'test\x00more' as its nine UTF-8 bytes, the NUL included. */
  const TEST_MORE: seq<Byte> := [116, 101, 115, 116, 0, 109, 111, 114, 101]

  /** Every code point of text is ASCII, so its UTF-8 encoding is the text itself. */
  predicate Ascii(text: seq<CodePoint>)
  {
    forall i | 0 <= i < |text| :: text[i] < 0x80
  }

  /** A short ASCII text is written as 's', its length in four bytes and its characters, and reads back as those bytes. */
  lemma ShortAscii(text: seq<CodePoint>)
    requires Ascii(text) && |text| < 256
    ensures Dumps(PyUnicode(text)) == Success([TAG_STR_SMALL, 0, 0, 0, |text|] + text)
    ensures Loads(Dumps(PyUnicode(text)).value) == Success(PyStr(text))
  {
    assert Utf8(text) == text;
    ShortStr(text);
    LoadsDumps(PyUnicode(text));
  }

  /**
   * dumps('test\x00more') == b's\x00\x00\x00\x09test\x00more', and
   * loads gives back b'test\x00more', the NUL included.
   */
  lemma StrDoctest()
    ensures Dumps(PyUnicode(TEST_MORE)) == Success([115, 0, 0, 0, 9] + TEST_MORE)
    ensures Loads(Dumps(PyUnicode(TEST_MORE)).value) == Success(PyStr(TEST_MORE))
  {
    assert Ascii(TEST_MORE);
    ShortAscii(TEST_MORE);
  }

  /** dumps('åäö') == b's\x00\x00\x00\x06\xc3\xa5\xc3\xa4\xc3\xb6'. */
  lemma UnicodeDoctest()
    ensures Dumps(PyUnicode([0xe5, 0xe4, 0xf6])) == Success([115, 0, 0, 0, 6, 0xc3, 0xa5, 0xc3, 0xa4, 0xc3, 0xb6])
  {
    var text: seq<CodePoint> := [0xe5, 0xe4, 0xf6];
    assert text[1..] == [0xe4, 0xf6] && text[1..][1..] == [0xf6];
    assert Utf8Char(0xe5) == [0xc3, 0xa5] && Utf8Char(0xe4) == [0xc3, 0xa4] && Utf8Char(0xf6) == [0xc3, 0xb6];
    var bytes: seq<Byte> := [0xc3, 0xa5, 0xc3, 0xa4, 0xc3, 0xb6];
    assert Utf8(text) == bytes;
    ShortText(text);
    assert [TAG_STR_SMALL, 0, 0, 0, |bytes|] + bytes == [115, 0, 0, 0, 6, 0xc3, 0xa5, 0xc3, 0xa4, 0xc3, 0xb6];
  }

  /** A text whose UTF-8 encoding is shorter than 256 bytes: 's', the encoded length, the encoding. */
  lemma ShortText(text: seq<CodePoint>)
    requires |Utf8(text)| < 256
    ensures Dumps(PyUnicode(text)) == Success([TAG_STR_SMALL, 0, 0, 0, |Utf8(text)|] + Utf8(text))
  {
    assert Dumps(PyUnicode(text)) == DumpStr(Utf8(text));
    ShortStr(Utf8(text));
  }

  /** The four-byte form of a small integer: 'i' then three zero bytes. */
  lemma SmallInt(n: Byte)
    ensures Dump(PyInt(n)) == Success([105, 0, 0, 0, n])
  {
    DataFormatExamples.DecodeFour(0, 0, 0, n);
    Int32Field(n, [0, 0, 0, n]);
    assert [TAG_INT32] + [0, 0, 0, n] == [105, 0, 0, 0, n];
  }

  /** loads(dumps(123)) == 123 and loads(dumps(2**54)) == 2**54 (the latter in the eight-byte form). */
  lemma LoadsIntDoctests()
    ensures Dumps(PyInt(123)).Success? && Loads(Dumps(PyInt(123)).value) == Success(PyInt(123))
    ensures Dumps(PyInt(0x40_0000_0000_0000)).Success?
    ensures Loads(Dumps(PyInt(0x40_0000_0000_0000)).value) == Success(PyInt(0x40_0000_0000_0000))
  {
    LoadsDumps(PyInt(123));
    LoadsDumps(PyInt(0x40_0000_0000_0000));
  }

}
