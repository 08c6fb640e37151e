/**
 * The text FBX parser of the mesh importer. A ParseBuffer holds the file
 * text and a cursor that only moves forward while parsing; objects are
 * `Key: properties {sub-objects}` with ';' comments.
 *
 * Each parsing method is proved against a function on (text, position)
 * that returns what was parsed and where the cursor ends. Where the source
 * loops forever (a string or a brace that is never closed: `peek` keeps
 * returning '' at the end of the text), the functions return
 * Failure(Unterminated) instead.
 */
module FbxParser {
  import opened Wrappers

  const WHITESPACE: set<char> := {' ', '\t', '\n'}
  const DIGITS: set<char> := {'0', '1', '2', '3', '4', '5', '6', '7', '8', '9'}
  const NUMBER_CHARS: set<char> := DIGITS + {'-'}
  /** The single-letter properties the parser keeps ('W', 'Y', 'L'). */
  const LETTER_PROPERTIES: set<char> := {'W', 'Y', 'L'}

  datatype Property =
    | IntProperty(value: int)
    /** A number with a '.', kept as the text handed to `float`. */
    | FloatProperty(text: string)
    | StringProperty(text: string)
    | LetterProperty(letter: char)

  /** `sub_objects` is None when the object has no braces. */
  datatype FbxObject = FbxObject(key: string, properties: seq<Property>, subObjects: Option<seq<FbxObject>>)

  datatype FbxError =
    /** Exception('eof while reading number'). */
    | EofInNumber
    /** The ValueError of `int(s)` on a run of digits and '-' that is not an integer. */
    | BadInteger(text: string)
    /** The source does not terminate: a string or a brace is never closed. */
    | Unterminated

  /** `peek` at p: the character there, or '' past the end. */
  function CharAt(data: string, p: nat): (r: string)
    ensures |r| <= 1 && (|r| == 1 <==> p < |data|)
    ensures p < |data| ==> r[0] == data[p]
  {
    if p < |data| then [data[p]] else []
  }

  /** How many characters are left from p. */
  function Remaining(data: string, p: nat): nat
  {
    if p < |data| then |data| - p else 0
  }

  /** Where `read_up_to(chars)` started at p < |data| stops: the first terminator after p, or the end. */
  function UpToEnd(data: string, p: nat, chars: set<char>): (e: nat)
    requires p < |data|
    ensures p < e <= |data|
    decreases |data| - p
  {
    if p + 1 >= |data| || data[p + 1] in chars then p + 1 else UpToEnd(data, p + 1, chars)
  }

  /** Where `read_while(chars)` started at p < |data| stops: the first character after p not in the set, or the end. */
  function WhileEnd(data: string, p: nat, chars: set<char>): (e: nat)
    requires p < |data|
    ensures p < e <= |data|
    decreases |data| - p
  {
    if p + 1 >= |data| || data[p + 1] !in chars then p + 1 else WhileEnd(data, p + 1, chars)
  }

  /** Where `skip_whitespace` started at p leaves the cursor. */
  function SkipEnd(data: string, p: nat): (e: nat)
    ensures e >= p
    decreases Remaining(data, p)
  {
    if p >= |data| then p
    else if data[p] == ';' then SkipEnd(data, UpToEnd(data, p, {'\n'}) + 1)
    else if data[p] in WHITESPACE then SkipEnd(data, p + 1)
    else p
  }

  /** The value of a string of decimal digits. */
  function Decimal(s: string): nat
    requires forall i | 0 <= i < |s| :: s[i] in DIGITS
  {
    if |s| == 0 then 0 else 10 * Decimal(s[..|s| - 1]) + (s[|s| - 1] as int - '0' as int)
  }

  predicate AllDigits(s: string)
  {
    forall i | 0 <= i < |s| :: s[i] in DIGITS
  }

  /** `int(s)` for a run of digits and '-': one optional leading '-', then at least one digit. */
  function IntText(s: string): (r: Option<int>)
    ensures r.Some? <==> (|s| > 0 && AllDigits(s)) || (|s| > 1 && s[0] == '-' && AllDigits(s[1..]))
  {
    if |s| > 0 && AllDigits(s) then Some(Decimal(s))
    else if |s| > 1 && s[0] == '-' && AllDigits(s[1..]) then Some(-(Decimal(s[1..]) as int))
    else None
  }

  /** `parse_number` at p. */
  function NumberAt(data: string, p: nat): (r: Result<(Property, nat), FbxError>)
    ensures r.Success? ==> p < r.value.1 <= |data| + 1
  {
    if p >= |data| then Failure(EofInNumber)
    else
      var e := WhileEnd(data, p, NUMBER_CHARS);
      var s := data[p..e];
      if e < |data| && data[e] == '.' then
        var q := e + 1;
        var f := if q < |data| then WhileEnd(data, q, DIGITS) else q;
        var t := if q < |data| then data[q..f] else [];
        Success((FloatProperty(s + ['.'] + t), f))
      else
        match IntText(s)
        case Some(n) => Success((IntProperty(n), e))
        case None => Failure(BadInteger(s))
  }

  /** The first '"' at or after q. */
  function QuoteAt(data: string, q: nat): (r: Option<nat>)
    ensures r.Some? ==> q <= r.value < |data| && data[r.value] == '"'
    decreases Remaining(data, q)
  {
    if q >= |data| then None else if data[q] == '"' then Some(q) else QuoteAt(data, q + 1)
  }

  /** `parse_string` at p (the opening quote): the text up to the next quote, which is skipped. */
  function StringAt(data: string, p: nat): (r: Result<(Property, nat), FbxError>)
    ensures r.Success? ==> p < r.value.1 <= |data|
  {
    match QuoteAt(data, p + 1)
    case None => Failure(Unterminated)
    case Some(j) => Success((StringProperty(data[p + 1..j]), j + 1))
  }

  /** One property at p: a number, a string, one of the letters, or nothing for any other character. */
  function PropertyAt(data: string, p: nat): (r: Result<(Option<Property>, nat), FbxError>)
    requires p < |data|
    ensures r.Success? ==> p <= r.value.1
  {
    var c := data[p];
    if c in NUMBER_CHARS then
      match NumberAt(data, p)
      case Failure(e) => Failure(e)
      case Success((n, q)) => Success((Some(n), q))
    else if c == '"' then
      match StringAt(data, p)
      case Failure(e) => Failure(e)
      case Success((s, q)) => Success((Some(s), q))
    else if c in LETTER_PROPERTIES then Success((Some(LetterProperty(c)), p + 1))
    else Success((None, p))
  }

  /**
   * The property loop of `parse_object` from p: stop at '{' or the end;
   * otherwise take one property, skip whitespace, and go on only past a ','.
   */
  function PropertiesAt(data: string, p: nat, acc: seq<Property>): (r: Result<(seq<Property>, nat), FbxError>)
    ensures r.Success? ==> p <= r.value.1
    decreases Remaining(data, p)
  {
    if p >= |data| || data[p] == '{' then Success((acc, p))
    else
      match PropertyAt(data, p)
      case Failure(e) => Failure(e)
      case Success((prop, q)) =>
        var props := if prop.Some? then acc + [prop.value] else acc;
        var s := SkipEnd(data, q);
        if s < |data| && data[s] == ',' then PropertiesAt(data, SkipEnd(data, s + 1), props)
        else Success((props, s))
  }

  /** `parse_object` at p: the key up to ':', the properties, and the sub-objects when a '{' follows. */
  function ObjectAt(data: string, p: nat): (r: Result<(FbxObject, nat), FbxError>)
    ensures r.Success? ==> p < r.value.1
    decreases Remaining(data, p), 1
  {
    var k := SkipEnd(data, p);
    var e := if k < |data| then UpToEnd(data, k, {':'}) else k;
    var key := if k < |data| then data[k..e] else [];
    match PropertiesAt(data, SkipEnd(data, e + 1), [])
    case Failure(err) => Failure(err)
    case Success((props, r)) =>
      if r < |data| && data[r] == '{' then
        match SubObjectsAt(data, r + 1, [])
        case Failure(err) => Failure(err)
        case Success((subs, end)) => Success((FbxObject(key, props, Some(subs)), end))
      else Success((FbxObject(key, props, None), r))
  }

  /** The sub-object loop of `parse_object` from p: objects until the closing '}', which is skipped. */
  function SubObjectsAt(data: string, p: nat, acc: seq<FbxObject>): (r: Result<(seq<FbxObject>, nat), FbxError>)
    ensures r.Success? ==> p < r.value.1
    decreases Remaining(data, p), 2
  {
    var s := SkipEnd(data, p);
    if s >= |data| then Failure(Unterminated)
    else if data[s] == '}' then Success((acc, s + 1))
    else
      match ObjectAt(data, s)
      case Failure(err) => Failure(err)
      case Success((o, q)) => SubObjectsAt(data, q, acc + [o])
  }

  /** The loop of `parse_fbx` from p: top-level objects by key, a later key replacing an earlier one. */
  function TopLevelAt(data: string, p: nat, acc: map<string, FbxObject>): (r: Result<map<string, FbxObject>, FbxError>)
    ensures r.Success? ==> acc.Keys <= r.value.Keys
    decreases Remaining(data, p)
  {
    var s := SkipEnd(data, p);
    if s >= |data| then Success(acc)
    else
      match ObjectAt(data, s)
      case Failure(err) => Failure(err)
      case Success((o, q)) => TopLevelAt(data, q, acc[o.key := o])
  }

  /** `parse_fbx`: the top-level objects of the whole text. */
  function ParseFbxText(data: string): (r: Result<map<string, FbxObject>, FbxError>)
  {
    TopLevelAt(data, 0, map[])
  }

  /** A parsing method's result and end position agree with its function. */
  predicate Delivers<X(==)>(r: Result<X, FbxError>, spec: Result<(X, nat), FbxError>, pos: nat)
  {
    match spec
    case Success((x, e)) => r == Success(x) && pos == e
    case Failure(err) => r == Failure(err)
  }

  // ---------------------------------------------------------------------
  // Facts about the functions

  /** `read_up_to` stops on the first terminator after its start, or at the end. */
  lemma {:induction false} UpToEndMeaning(data: string, p: nat, chars: set<char>)
    requires p < |data|
    ensures forall k | p < k < UpToEnd(data, p, chars) :: data[k] !in chars
    ensures UpToEnd(data, p, chars) < |data| ==> data[UpToEnd(data, p, chars)] in chars
    decreases |data| - p
  {
    if !(p + 1 >= |data| || data[p + 1] in chars) {
      UpToEndMeaning(data, p + 1, chars);
    }
  }

  /** `read_while` stops on the first character after its start not in the set, or at the end. */
  lemma {:induction false} WhileEndMeaning(data: string, p: nat, chars: set<char>)
    requires p < |data|
    ensures forall k | p < k < WhileEnd(data, p, chars) :: data[k] in chars
    ensures WhileEnd(data, p, chars) < |data| ==> data[WhileEnd(data, p, chars)] !in chars
    decreases |data| - p
  {
    if !(p + 1 >= |data| || data[p + 1] !in chars) {
      WhileEndMeaning(data, p + 1, chars);
    }
  }

  /** `skip_whitespace` stops at the end or on a character that is neither whitespace nor ';'. */
  lemma {:induction false} SkipEndLands(data: string, p: nat)
    ensures SkipEnd(data, p) < |data| ==> data[SkipEnd(data, p)] !in WHITESPACE && data[SkipEnd(data, p)] != ';'
    decreases Remaining(data, p)
  {
    if p < |data| {
      if data[p] == ';' {
        SkipEndLands(data, UpToEnd(data, p, {'\n'}) + 1);
      } else if data[p] in WHITESPACE {
        SkipEndLands(data, p + 1);
      }
    }
  }

  /** Skipping whitespace twice is skipping it once. */
  lemma SkipEndIdempotent(data: string, p: nat)
    ensures SkipEnd(data, SkipEnd(data, p)) == SkipEnd(data, p)
  {
    SkipEndLands(data, p);
  }

  /** `int` of the digit runs it accepts: the sign applies to the decimal value. */
  lemma IntTextValues(d: string)
    requires |d| > 0 && AllDigits(d)
    ensures IntText(d) == Some(Decimal(d))
    ensures IntText(['-'] + d) == Some(-(Decimal(d) as int))
  {
    assert (['-'] + d)[1..] == d;
  }

  /** The sub-object loop may start before or after the whitespace it skips. */
  lemma SubObjectsSkip(data: string, p: nat, acc: seq<FbxObject>)
    ensures SubObjectsAt(data, SkipEnd(data, p), acc) == SubObjectsAt(data, p, acc)
  {
    SkipEndIdempotent(data, p);
  }

  /** One sub-object read at a skipped position that is not '}'. */
  lemma SubObjectsStep(data: string, p: nat, acc: seq<FbxObject>)
    requires p == SkipEnd(data, p) && p < |data| && data[p] != '}' && ObjectAt(data, p).Success?
    ensures SubObjectsAt(data, p, acc) == SubObjectsAt(data, ObjectAt(data, p).value.1, acc + [ObjectAt(data, p).value.0])
  {
  }

  /** A sub-object that fails to parse fails the loop. */
  lemma SubObjectsFail(data: string, p: nat, acc: seq<FbxObject>)
    requires p == SkipEnd(data, p) && p < |data| && data[p] != '}' && ObjectAt(data, p).Failure?
    ensures SubObjectsAt(data, p, acc) == Failure(ObjectAt(data, p).error)
  {
  }

  /** The closing '}' ends the loop and is skipped. */
  lemma SubObjectsClose(data: string, p: nat, acc: seq<FbxObject>)
    requires p == SkipEnd(data, p) && p < |data| && data[p] == '}'
    ensures SubObjectsAt(data, p, acc) == Success((acc, p + 1))
  {
  }

  /** The top-level loop may start before or after the whitespace it skips. */
  lemma TopLevelSkip(data: string, p: nat, acc: map<string, FbxObject>)
    ensures TopLevelAt(data, SkipEnd(data, p), acc) == TopLevelAt(data, p, acc)
  {
    SkipEndIdempotent(data, p);
  }

  /** One top-level object at a skipped position before the end. */
  lemma TopLevelStep(data: string, p: nat, acc: map<string, FbxObject>)
    requires p == SkipEnd(data, p) && p < |data|
    ensures ObjectAt(data, p).Failure? ==> TopLevelAt(data, p, acc) == Failure(ObjectAt(data, p).error)
    ensures ObjectAt(data, p).Success? ==>
      TopLevelAt(data, p, acc) == TopLevelAt(data, ObjectAt(data, p).value.1, acc[ObjectAt(data, p).value.0.key := ObjectAt(data, p).value.0])
  {
  }

  // ---------------------------------------------------------------------
  // The buffer and the parsing methods

  class ParseBuffer {
    const data: string
    var pos: nat

    constructor(text: string)
      ensures data == text && pos == 0
    {
      data := text;
      pos := 0;
    }

    /** `peek`: never moves. */
    function Peek(): (r: string)
      reads this
      ensures r == CharAt(data, pos)
    {
      if pos >= |data| then [] else [data[pos]]
    }

    /** `read`: one step forward, then the character there (or '' past the end). */
    method Read() returns (c: string)
      modifies this
      ensures pos == old(pos) + 1 && c == CharAt(data, pos)
    {
      pos := pos + 1;
      c := Peek();
    }

    /** `read_back`: one step back. */
    method ReadBack()
      requires pos > 0
      modifies this
      ensures pos == old(pos) - 1
    {
      pos := pos - 1;
    }

    /**
     * `read_up_to(chars)`: '' at the end; otherwise the current character,
     * whatever it is, and the following ones up to the first terminator,
     * where the cursor stays.
     */
    method ReadUpTo(chars: set<char>) returns (s: string)
      modifies this
      ensures old(pos) >= |data| ==> pos == old(pos) && s == []
      ensures old(pos) < |data| ==> pos == UpToEnd(data, old(pos), chars) && s == data[old(pos)..pos]
    {
      s := Peek();
      if s == [] {
        return;
      }
      ghost var start := pos;
      while true
        invariant start <= pos < |data| && s == data[start..pos + 1]
        invariant UpToEnd(data, start, chars) == UpToEnd(data, pos, chars)
        decreases |data| - pos
      {
        var c := Read();
        if c != [] && c[0] !in chars {
          s := s + c;
        } else {
          return;
        }
      }
    }

    /** `read_while(chars)`: '' at the end; otherwise the current character and the run in the set after it. */
    method ReadWhile(chars: set<char>) returns (s: string)
      modifies this
      ensures old(pos) >= |data| ==> pos == old(pos) && s == []
      ensures old(pos) < |data| ==> pos == WhileEnd(data, old(pos), chars) && s == data[old(pos)..pos]
    {
      s := Peek();
      if s == [] {
        return;
      }
      ghost var start := pos;
      while true
        invariant start <= pos < |data| && s == data[start..pos + 1]
        invariant WhileEnd(data, start, chars) == WhileEnd(data, pos, chars)
        decreases |data| - pos
      {
        var c := Read();
        if c != [] && c[0] in chars {
          s := s + c;
        } else {
          return;
        }
      }
    }
  }

  /**
   * `skip_whitespace`: past spaces, tabs, newlines and ';' comments;
   * true iff a character remains.
   */
  method SkipWhitespace(b: ParseBuffer) returns (more: bool)
    modifies b
    ensures b.pos == SkipEnd(b.data, old(b.pos)) && (more <==> b.pos < |b.data|)
  {
    var c := b.Peek();
    while true
      invariant c == CharAt(b.data, b.pos)
      invariant SkipEnd(b.data, old(b.pos)) == SkipEnd(b.data, b.pos)
      decreases Remaining(b.data, b.pos)
    {
      if c == [] {
        return false;
      }
      if c == [';'] {
        // the comment read always starts with ';', so the source's check for '' never fires
        var comment := b.ReadUpTo({'\n'});
      } else if c[0] !in WHITESPACE {
        return true;
      }
      c := b.Read();
    }
  }

  /** `parse_number`: a run of digits and '-', and a fraction when a '.' follows. */
  method ParseNumber(b: ParseBuffer) returns (r: Result<Property, FbxError>)
    modifies b
    ensures Delivers(r, NumberAt(b.data, old(b.pos)), b.pos)
  {
    var s := b.ReadWhile(NUMBER_CHARS);
    if s == [] {
      return Failure(EofInNumber);
    }
    if b.Peek() == ['.'] {
      var dot := b.Read();
      var fraction := b.ReadWhile(DIGITS);
      return Success(FloatProperty(s + ['.'] + fraction));
    }
    var n := IntText(s);
    if n.None? {
      return Failure(BadInteger(s));
    }
    return Success(IntProperty(n.value));
  }

  /** `parse_string`: the characters after the opening quote up to the next quote, which is skipped. */
  method ParseString(b: ParseBuffer) returns (r: Result<Property, FbxError>)
    modifies b
    ensures Delivers(r, StringAt(b.data, old(b.pos)), b.pos)
  {
    ghost var start := b.pos;
    var s: string := [];
    var skip := b.Read();
    var p := b.Peek();
    while p != ['"']
      invariant b.pos == start + 1 + |s| && p == CharAt(b.data, b.pos)
      invariant b.pos <= |b.data| ==> s == b.data[start + 1..b.pos]
      invariant b.pos > |b.data| ==> s == []
      invariant QuoteAt(b.data, start + 1) == QuoteAt(b.data, b.pos)
      decreases Remaining(b.data, b.pos)
    {
      if p == [] {
        // `peek` stays '' from here on: the source loops forever
        return Failure(Unterminated);
      }
      s := s + p;
      skip := b.Read();
      p := b.Peek();
    }
    skip := b.Read();
    return Success(StringProperty(s));
  }

  /** The property loop of `parse_object`. */
  method ParseProperties(b: ParseBuffer) returns (r: Result<seq<Property>, FbxError>)
    modifies b
    ensures Delivers(r, PropertiesAt(b.data, old(b.pos), []), b.pos)
  {
    var properties: seq<Property> := [];
    var p := b.Peek();
    while p != [] && p != ['{']
      invariant p == CharAt(b.data, b.pos)
      invariant PropertiesAt(b.data, old(b.pos), []) == PropertiesAt(b.data, b.pos, properties)
      decreases Remaining(b.data, b.pos)
    {
      ghost var here := b.pos;
      ghost var step := PropertyAt(b.data, here);
      if p[0] in NUMBER_CHARS {
        var n := ParseNumber(b);
        if n.Failure? {
          return Failure(n.error);
        }
        properties := properties + [n.value];
      } else if p[0] == '"' {
        var s := ParseString(b);
        if s.Failure? {
          return Failure(s.error);
        }
        properties := properties + [s.value];
      } else if p[0] in LETTER_PROPERTIES {
        properties := properties + [LetterProperty(p[0])];
        var skip := b.Read();
      }
      assert step == Success((if here == b.pos then None else Some(properties[|properties| - 1]), b.pos));
      var more := SkipWhitespace(b);
      if b.Peek() == [','] {
        var comma := b.Read();
        more := SkipWhitespace(b);
      } else {
        return Success(properties);
      }
      p := b.Peek();
    }
    return Success(properties);
  }

  /** `parse_object`: the key up to ':', the properties, then the sub-objects when a '{' follows. */
  method ParseObject(b: ParseBuffer) returns (r: Result<FbxObject, FbxError>)
    modifies b
    ensures Delivers(r, ObjectAt(b.data, old(b.pos)), b.pos)
    decreases Remaining(b.data, b.pos), 1
  {
    var more := SkipWhitespace(b);
    var key := b.ReadUpTo({':'});
    var colon := b.Read();
    more := SkipWhitespace(b);
    var properties := ParseProperties(b);
    if properties.Failure? {
      return Failure(properties.error);
    }
    if b.Peek() == ['{'] {
      var brace := b.Read();
      var subObjects := ParseSubObjects(b);
      if subObjects.Failure? {
        return Failure(subObjects.error);
      }
      return Success(FbxObject(key, properties.value, Some(subObjects.value)));
    }
    return Success(FbxObject(key, properties.value, None));
  }

  /** The sub-object loop of `parse_object`, after the '{'. */
  method ParseSubObjects(b: ParseBuffer) returns (r: Result<seq<FbxObject>, FbxError>)
    modifies b
    ensures Delivers(r, SubObjectsAt(b.data, old(b.pos), []), b.pos)
    decreases Remaining(b.data, b.pos), 2
  {
    var subObjects: seq<FbxObject> := [];
    var more := SkipWhitespace(b);
    SkipEndIdempotent(b.data, old(b.pos));
    SubObjectsSkip(b.data, old(b.pos), []);
    while b.Peek() != ['}']
      invariant old(b.pos) <= b.pos && b.pos == SkipEnd(b.data, b.pos)
      invariant SubObjectsAt(b.data, old(b.pos), []) == SubObjectsAt(b.data, b.pos, subObjects)
      decreases Remaining(b.data, b.pos)
    {
      if b.Peek() == [] {
        // `parse_object` at the end reads nothing and `peek` stays '': the source loops forever
        return Failure(Unterminated);
      }
      ghost var here := b.pos;
      var o := ParseObject(b);
      if o.Failure? {
        SubObjectsFail(b.data, here, subObjects);
        return Failure(o.error);
      }
      SubObjectsStep(b.data, here, subObjects);
      subObjects := subObjects + [o.value];
      ghost var after := b.pos;
      more := SkipWhitespace(b);
      SkipEndIdempotent(b.data, after);
      SubObjectsSkip(b.data, after, subObjects);
    }
    SubObjectsClose(b.data, b.pos, subObjects);
    var brace := b.Read();
    return Success(subObjects);
  }

  /** `parse_fbx`: top-level objects until only whitespace is left. */
  method ParseFbx(text: string) returns (r: Result<map<string, FbxObject>, FbxError>)
    ensures r == ParseFbxText(text)
  {
    var b := new ParseBuffer(text);
    var objects: map<string, FbxObject> := map[];
    var more := SkipWhitespace(b);
    SkipEndIdempotent(text, 0);
    while more
      invariant b.data == text && (more <==> b.pos < |text|) && b.pos == SkipEnd(text, b.pos)
      invariant ParseFbxText(text) == TopLevelAt(text, b.pos, objects)
      decreases Remaining(text, b.pos)
    {
      ghost var here := b.pos;
      var o := ParseObject(b);
      TopLevelStep(text, here, objects);
      if o.Failure? {
        return Failure(o.error);
      }
      objects := objects[o.value.key := o.value];
      ghost var after := b.pos;
      more := SkipWhitespace(b);
      SkipEndIdempotent(text, after);
      TopLevelSkip(text, after, objects);
    }
    TopLevelSkip(text, b.pos, objects);
    return Success(objects);
  }
}
