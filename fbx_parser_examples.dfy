/** The FBX parser's unit tests, as facts about the parsing functions. */
module FbxParserExamples {
  import opened Wrappers
  import opened FbxParser

  // One-step unfoldings of the parsing functions, stated for any text

  lemma ObjectPlain(data: string, p: nat, k: nat, e: nat, props: seq<Property>, r: nat)
    requires k == SkipEnd(data, p) && k < |data| && e == UpToEnd(data, k, {':'})
    requires PropertiesAt(data, SkipEnd(data, e + 1), []) == Success((props, r))
    requires !(r < |data| && data[r] == '{')
    ensures ObjectAt(data, p) == Success((FbxObject(data[k..e], props, None), r))
  {
  }

  lemma ObjectBraced(data: string, p: nat, k: nat, e: nat, props: seq<Property>, r: nat, subs: seq<FbxObject>, end: nat)
    requires k == SkipEnd(data, p) && k < |data| && e == UpToEnd(data, k, {':'})
    requires PropertiesAt(data, SkipEnd(data, e + 1), []) == Success((props, r))
    requires r < |data| && data[r] == '{'
    requires SubObjectsAt(data, r + 1, []) == Success((subs, end))
    ensures ObjectAt(data, p) == Success((FbxObject(data[k..e], props, Some(subs)), end))
  {
  }

  lemma PropertiesStop(data: string, p: nat, acc: seq<Property>)
    requires p >= |data| || data[p] == '{'
    ensures PropertiesAt(data, p, acc) == Success((acc, p))
  {
  }

  lemma PropertiesLast(data: string, p: nat, acc: seq<Property>, prop: Property, q: nat)
    requires p < |data| && data[p] != '{' && PropertyAt(data, p) == Success((Some(prop), q))
    requires !(SkipEnd(data, q) < |data| && data[SkipEnd(data, q)] == ',')
    ensures PropertiesAt(data, p, acc) == Success((acc + [prop], SkipEnd(data, q)))
  {
  }

  lemma SubObjectsDone(data: string, p: nat, acc: seq<FbxObject>)
    requires SkipEnd(data, p) < |data| && data[SkipEnd(data, p)] == '}'
    ensures SubObjectsAt(data, p, acc) == Success((acc, SkipEnd(data, p) + 1))
  {
  }

  lemma SubObjectsNext(data: string, p: nat, acc: seq<FbxObject>, o: FbxObject, q: nat)
    requires SkipEnd(data, p) < |data| && data[SkipEnd(data, p)] != '}'
    requires ObjectAt(data, SkipEnd(data, p)) == Success((o, q))
    ensures SubObjectsAt(data, p, acc) == SubObjectsAt(data, q, acc + [o])
  {
  }

  lemma SkipStop(data: string, p: nat)
    requires p >= |data| || (data[p] !in WHITESPACE && data[p] != ';')
    ensures SkipEnd(data, p) == p
  {
  }

  lemma SkipSpace(data: string, p: nat)
    requires p < |data| && data[p] in WHITESPACE
    ensures SkipEnd(data, p) == SkipEnd(data, p + 1)
  {
  }

  lemma UpToStop(data: string, p: nat, chars: set<char>)
    requires p < |data| && (p + 1 >= |data| || data[p + 1] in chars)
    ensures UpToEnd(data, p, chars) == p + 1
  {
  }

  lemma UpToOn(data: string, p: nat, chars: set<char>)
    requires p + 1 < |data| && data[p + 1] !in chars
    ensures UpToEnd(data, p, chars) == UpToEnd(data, p + 1, chars)
  {
  }

  lemma PropertiesComma(data: string, p: nat, acc: seq<Property>, prop: Property, q: nat)
    requires p < |data| && data[p] != '{' && PropertyAt(data, p) == Success((Some(prop), q))
    requires SkipEnd(data, q) < |data| && data[SkipEnd(data, q)] == ','
    ensures PropertiesAt(data, p, acc) == PropertiesAt(data, SkipEnd(data, SkipEnd(data, q) + 1), acc + [prop])
  {
  }

  lemma PropertiesNothing(data: string, p: nat, acc: seq<Property>)
    requires p < |data| && data[p] != '{' && data[p] !in NUMBER_CHARS && data[p] != '"' && data[p] !in LETTER_PROPERTIES
    requires !(SkipEnd(data, p) < |data| && data[SkipEnd(data, p)] == ',')
    ensures PropertiesAt(data, p, acc) == Success((acc, SkipEnd(data, p)))
  {
  }

  lemma PropertyNumber(data: string, p: nat, n: Property, q: nat)
    requires p < |data| && data[p] in NUMBER_CHARS && NumberAt(data, p) == Success((n, q))
    ensures PropertyAt(data, p) == Success((Some(n), q))
  {
  }

  lemma PropertyString(data: string, p: nat, t: Property, q: nat)
    requires p < |data| && data[p] == '"' && StringAt(data, p) == Success((t, q))
    ensures PropertyAt(data, p) == Success((Some(t), q))
  {
  }

  lemma NumberInteger(data: string, p: nat, e: nat, n: int)
    requires p < |data| && e == WhileEnd(data, p, NUMBER_CHARS) && !(e < |data| && data[e] == '.')
    requires IntText(data[p..e]) == Some(n)
    ensures NumberAt(data, p) == Success((IntProperty(n), e))
  {
  }

  lemma NumberFraction(data: string, p: nat, e: nat, f: nat)
    requires p < |data| && e == WhileEnd(data, p, NUMBER_CHARS) && e + 1 < |data| && data[e] == '.'
    requires f == WhileEnd(data, e + 1, DIGITS)
    ensures NumberAt(data, p) == Success((FloatProperty(data[p..e] + ['.'] + data[e + 1..f]), f))
  {
  }

  lemma WhileStop(data: string, p: nat, chars: set<char>)
    requires p < |data| && (p + 1 >= |data| || data[p + 1] !in chars)
    ensures WhileEnd(data, p, chars) == p + 1
  {
  }

  lemma WhileOn(data: string, p: nat, chars: set<char>)
    requires p + 1 < |data| && data[p + 1] in chars
    ensures WhileEnd(data, p, chars) == WhileEnd(data, p + 1, chars)
  {
  }

  lemma QuoteOn(data: string, q: nat)
    requires q < |data| && data[q] != '"'
    ensures QuoteAt(data, q) == QuoteAt(data, q + 1)
  {
  }

  /** Unfolding `read_while` over three characters of a number. */
  lemma NumberOfThree(data: string, p: nat)
    requires p + 2 < |data| && data[p + 1] in NUMBER_CHARS && data[p + 2] in NUMBER_CHARS
    requires p + 3 >= |data| || data[p + 3] !in NUMBER_CHARS
    ensures WhileEnd(data, p, NUMBER_CHARS) == p + 3
  {
    WhileOn(data, p, NUMBER_CHARS);
    WhileOn(data, p + 1, NUMBER_CHARS);
    WhileStop(data, p + 2, NUMBER_CHARS);
  }

  lemma Decimal123()
    ensures Decimal("123") == 123
  {
    assert "123"[..2] == "12";
    assert "12"[..1] == "1";
    assert "1"[..0] == "";
  }

  /** Unfolding `read_up_to(':')` over a key of three letters. */
  lemma KeyOfThree(data: string, k: nat)
    requires k + 3 < |data| && data[k + 1] != ':' && data[k + 2] != ':' && data[k + 3] == ':'
    ensures UpToEnd(data, k, {':'}) == k + 3
  {
    UpToOn(data, k, {':'});
    UpToOn(data, k + 1, {':'});
    UpToStop(data, k + 2, {':'});
  }

  /** Unfolding `read_up_to(':')` over a key of four letters. */
  lemma KeyOfFour(data: string, k: nat)
    requires k + 4 < |data| && data[k + 1] != ':' && data[k + 2] != ':' && data[k + 3] != ':' && data[k + 4] == ':'
    ensures UpToEnd(data, k, {':'}) == k + 4
  {
    UpToOn(data, k, {':'});
    KeyOfThree(data, k + 1);
  }

  /** `skip_whitespace` over one whitespace character. */
  lemma SkipOne(data: string, p: nat)
    requires p < |data| && data[p] in WHITESPACE
    requires p + 1 >= |data| || (data[p + 1] !in WHITESPACE && data[p + 1] != ';')
    ensures SkipEnd(data, p) == p + 1
  {
    SkipSpace(data, p);
    SkipStop(data, p + 1);
  }

  /** The property 123 at p. */
  lemma Integer123(data: string, p: nat)
    requires p + 3 <= |data| && data[p..p + 3] == "123"
    requires p + 3 >= |data| || (data[p + 3] !in NUMBER_CHARS && data[p + 3] != '.')
    ensures PropertyAt(data, p) == Success((Some(IntProperty(123)), p + 3))
  {
    assert data[p] == '1' && data[p + 1] == '2' && data[p + 2] == '3';
    NumberOfThree(data, p);
    Decimal123();
    NumberInteger(data, p, p + 3, 123);
    PropertyNumber(data, p, IntProperty(123), p + 3);
  }

  /** A single property, not followed by a ','. */
  lemma PropertiesOne(data: string, p: nat, prop: Property, q: nat)
    requires p < |data| && data[p] != '{' && PropertyAt(data, p) == Success((Some(prop), q))
    requires !(SkipEnd(data, q) < |data| && data[SkipEnd(data, q)] == ',')
    ensures PropertiesAt(data, p, []) == Success(([prop], SkipEnd(data, q)))
  {
    PropertiesLast(data, p, [], prop, q);
    assert [] + [prop] == [prop];
  }

  // The unit tests of the parser

  const EMPTY_TEXT := "Key:  {\n}"

  lemma EmptyHead()
    ensures SkipEnd(EMPTY_TEXT, 0) == 0 && UpToEnd(EMPTY_TEXT, 0, {':'}) == 3 && EMPTY_TEXT[0..3] == "Key"
    ensures SkipEnd(EMPTY_TEXT, 4) == 6
  {
    SkipStop(EMPTY_TEXT, 0);
    KeyOfThree(EMPTY_TEXT, 0);
    SkipSpace(EMPTY_TEXT, 4);
    SkipOne(EMPTY_TEXT, 5);
  }

  /** An object with braces and nothing in them has an empty list of sub-objects. */
  lemma EmptyObject()
    ensures ObjectAt(EMPTY_TEXT, 0) == Success((FbxObject("Key", [], Some([])), 9))
  {
    EmptyHead();
    PropertiesStop(EMPTY_TEXT, 6, []);
    SkipOne(EMPTY_TEXT, 7);
    SubObjectsDone(EMPTY_TEXT, 7, []);
    ObjectBraced(EMPTY_TEXT, 0, 0, 3, [], 6, [], 9);
  }

  const NULLARY_TEXT := "Key:\n"

  /** An object without braces has no sub-objects at all. */
  lemma NullaryProperty()
    ensures ObjectAt(NULLARY_TEXT, 0) == Success((FbxObject("Key", [], None), 5))
  {
    SkipStop(NULLARY_TEXT, 0);
    KeyOfThree(NULLARY_TEXT, 0);
    SkipOne(NULLARY_TEXT, 4);
    PropertiesStop(NULLARY_TEXT, 5, []);
    assert NULLARY_TEXT[0..3] == "Key";
    ObjectPlain(NULLARY_TEXT, 0, 0, 3, [], 5);
  }

  const SUB_OBJECT_TEXT := "Parent:  {\n  Child:\n}"
  const CHILD := FbxObject("Child", [], None)

  lemma ChildHead()
    ensures SkipEnd(SUB_OBJECT_TEXT, 13) == 13 && UpToEnd(SUB_OBJECT_TEXT, 13, {':'}) == 18
    ensures SUB_OBJECT_TEXT[13..18] == "Child" && SkipEnd(SUB_OBJECT_TEXT, 19) == 20
  {
    SkipStop(SUB_OBJECT_TEXT, 13);
    UpToOn(SUB_OBJECT_TEXT, 13, {':'});
    KeyOfFour(SUB_OBJECT_TEXT, 14);
    SkipOne(SUB_OBJECT_TEXT, 19);
  }

  lemma ChildObject()
    ensures ObjectAt(SUB_OBJECT_TEXT, 13) == Success((CHILD, 20))
  {
    ChildHead();
    SkipStop(SUB_OBJECT_TEXT, 20);
    PropertiesNothing(SUB_OBJECT_TEXT, 20, []);
    ObjectPlain(SUB_OBJECT_TEXT, 13, 13, 18, [], 20);
  }

  lemma ChildList()
    ensures SubObjectsAt(SUB_OBJECT_TEXT, 10, []) == Success(([CHILD], 21))
  {
    SkipSpace(SUB_OBJECT_TEXT, 10);
    SkipSpace(SUB_OBJECT_TEXT, 11);
    SkipOne(SUB_OBJECT_TEXT, 12);
    ChildObject();
    SubObjectsNext(SUB_OBJECT_TEXT, 10, [], CHILD, 20);
    assert [] + [CHILD] == [CHILD];
    SkipStop(SUB_OBJECT_TEXT, 20);
    SubObjectsDone(SUB_OBJECT_TEXT, 20, [CHILD]);
  }

  lemma ParentKey()
    ensures UpToEnd(SUB_OBJECT_TEXT, 0, {':'}) == 6
  {
    UpToOn(SUB_OBJECT_TEXT, 0, {':'});
    UpToOn(SUB_OBJECT_TEXT, 1, {':'});
    KeyOfFour(SUB_OBJECT_TEXT, 2);
  }

  lemma ParentHead()
    ensures SkipEnd(SUB_OBJECT_TEXT, 0) == 0 && UpToEnd(SUB_OBJECT_TEXT, 0, {':'}) == 6
    ensures SUB_OBJECT_TEXT[0..6] == "Parent" && SkipEnd(SUB_OBJECT_TEXT, 7) == 9
  {
    SkipStop(SUB_OBJECT_TEXT, 0);
    ParentKey();
    SkipSpace(SUB_OBJECT_TEXT, 7);
    SkipOne(SUB_OBJECT_TEXT, 8);
  }

  /** A sub-object on its own line. */
  lemma ObjectWithSubObject()
    ensures ObjectAt(SUB_OBJECT_TEXT, 0) == Success((FbxObject("Parent", [], Some([CHILD])), 21))
  {
    ParentHead();
    PropertiesStop(SUB_OBJECT_TEXT, 9, []);
    ChildList();
    ObjectBraced(SUB_OBJECT_TEXT, 0, 0, 6, [], 9, [CHILD], 21);
  }

  const INT_TEXT := "Key: 123 {\n}"

  lemma IntHead()
    ensures SkipEnd(INT_TEXT, 0) == 0 && UpToEnd(INT_TEXT, 0, {':'}) == 3 && INT_TEXT[0..3] == "Key"
    ensures SkipEnd(INT_TEXT, 4) == 5
  {
    SkipStop(INT_TEXT, 0);
    KeyOfThree(INT_TEXT, 0);
    SkipOne(INT_TEXT, 4);
  }

  lemma IntProperties()
    ensures PropertiesAt(INT_TEXT, 5, []) == Success(([IntProperty(123)], 9))
  {
    assert INT_TEXT[5..8] == "123";
    Integer123(INT_TEXT, 5);
    SkipOne(INT_TEXT, 8);
    PropertiesOne(INT_TEXT, 5, IntProperty(123), 8);
  }

  lemma IntBraces()
    ensures SubObjectsAt(INT_TEXT, 10, []) == Success(([], 12))
  {
    SkipOne(INT_TEXT, 10);
    SubObjectsDone(INT_TEXT, 10, []);
  }

  /** An integer property before the braces. */
  lemma IntPropertyBeforeBraces()
    ensures ObjectAt(INT_TEXT, 0) == Success((FbxObject("Key", [IntProperty(123)], Some([])), 12))
  {
    IntHead();
    IntProperties();
    IntBraces();
    ObjectBraced(INT_TEXT, 0, 0, 3, [IntProperty(123)], 9, [], 12);
  }

  const STRING_TEXT := "Key: \"prop\" {\n}"

  lemma StringHead()
    ensures SkipEnd(STRING_TEXT, 0) == 0 && UpToEnd(STRING_TEXT, 0, {':'}) == 3 && STRING_TEXT[0..3] == "Key"
    ensures SkipEnd(STRING_TEXT, 4) == 5
  {
    SkipStop(STRING_TEXT, 0);
    KeyOfThree(STRING_TEXT, 0);
    SkipOne(STRING_TEXT, 4);
  }

  lemma StringProperties()
    ensures PropertiesAt(STRING_TEXT, 5, []) == Success(([StringProperty("prop")], 12))
  {
    QuoteOn(STRING_TEXT, 6);
    QuoteOn(STRING_TEXT, 7);
    QuoteOn(STRING_TEXT, 8);
    QuoteOn(STRING_TEXT, 9);
    assert QuoteAt(STRING_TEXT, 10) == Some(10);
    assert STRING_TEXT[6..10] == "prop";
    PropertyString(STRING_TEXT, 5, StringProperty("prop"), 11);
    SkipOne(STRING_TEXT, 11);
    PropertiesOne(STRING_TEXT, 5, StringProperty("prop"), 11);
  }

  lemma StringBraces()
    ensures SubObjectsAt(STRING_TEXT, 13, []) == Success(([], 15))
  {
    SkipOne(STRING_TEXT, 13);
    SubObjectsDone(STRING_TEXT, 13, []);
  }

  /** A string property before the braces. */
  lemma StringPropertyBeforeBraces()
    ensures ObjectAt(STRING_TEXT, 0) == Success((FbxObject("Key", [StringProperty("prop")], Some([])), 15))
  {
    StringHead();
    StringProperties();
    StringBraces();
    ObjectBraced(STRING_TEXT, 0, 0, 3, [StringProperty("prop")], 12, [], 15);
  }

  const CONTINUATION_TEXT := "Key1: 123\nKey2: 456\n"

  lemma ContinuationHead()
    ensures SkipEnd(CONTINUATION_TEXT, 0) == 0 && UpToEnd(CONTINUATION_TEXT, 0, {':'}) == 4
    ensures CONTINUATION_TEXT[0..4] == "Key1" && SkipEnd(CONTINUATION_TEXT, 5) == 6
  {
    SkipStop(CONTINUATION_TEXT, 0);
    KeyOfFour(CONTINUATION_TEXT, 0);
    SkipOne(CONTINUATION_TEXT, 5);
  }

  lemma ContinuationProperties()
    ensures PropertiesAt(CONTINUATION_TEXT, 6, []) == Success(([IntProperty(123)], 10))
  {
    assert CONTINUATION_TEXT[6..9] == "123";
    Integer123(CONTINUATION_TEXT, 6);
    SkipOne(CONTINUATION_TEXT, 9);
    PropertiesOne(CONTINUATION_TEXT, 6, IntProperty(123), 9);
  }

  /** The object ends at the line end: the next key is left for the next object. */
  lemma PropertyWithContinuation()
    ensures ObjectAt(CONTINUATION_TEXT, 0) == Success((FbxObject("Key1", [IntProperty(123)], None), 10))
  {
    ContinuationHead();
    ContinuationProperties();
    ObjectPlain(CONTINUATION_TEXT, 0, 0, 4, [IntProperty(123)], 10);
  }

  /** A number with a fraction is handed to `float` as its text. */
  lemma Fraction()
    ensures NumberAt("123.5,", 0) == Success((FloatProperty("123.5"), 5))
  {
    var data := "123.5,";
    NumberOfThree(data, 0);
    WhileStop(data, 4, DIGITS);
    NumberFraction(data, 0, 3, 5);
    assert data[0..3] + ['.'] + data[4..5] == "123.5";
  }

  /** A leading '-' makes a negative integer. */
  lemma NegativeInteger()
    ensures NumberAt("-12,", 0) == Success((IntProperty(-12), 3))
  {
    var data := "-12,";
    NumberOfThree(data, 0);
    assert data[0..3] == ['-'] + "12";
    assert Decimal("12") == 12 by {
      assert "12"[..1] == "1";
      assert "1"[..0] == "";
    }
    IntTextValues("12");
    NumberInteger(data, 0, 3, -12);
  }

  /** A '-' inside the digits is read along but is not an integer. */
  lemma MinusInsideDigits()
    ensures NumberAt("1-2,", 0) == Failure(BadInteger("1-2"))
  {
    var data := "1-2,";
    NumberOfThree(data, 0);
    assert data[0..3] == "1-2";
    assert "1-2"[1] !in DIGITS;
    assert "1-2"[1..][0] !in DIGITS;
  }
}
