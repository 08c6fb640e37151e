/**
 * The OBJ importer: `parse_obj` reads 'v', 'vt', 'vn', 'f' and 'g' lines
 * into a mesh; `make_flattened_dict` follows every face corner and
 * gathers its position, texture coordinate and normal (1-based indices).
 *
 * Coordinates are kept as the text handed to `float`.
 */
module ObjImporter {
  import opened Wrappers
  import FbxParser

  /** The characters `str.strip()` removes. */
  const STRIP_CHARS: set<char> := {' ', '\t', '\n', '\r', '\U{0B}', '\U{0C}'}
  const DEFAULT_NAME := "(unknown)"

  datatype ObjMesh = ObjMesh(
    vertices: seq<seq<string>>,
    texcoords: seq<seq<string>>,
    normals: seq<seq<string>>,
    tris: seq<seq<seq<int>>>,
    name: string)

  const EMPTY_MESH := ObjMesh([], [], [], [], DEFAULT_NAME)

  datatype ObjError =
    /** The ValueError of `int` on a face field. */
    | BadInteger(text: string)
    /** The IndexError of a 'g' line without a name. */
    | MissingName
    /** The ValueError of unpacking a face corner that is not (vi, ti, ni). */
    | BadCorner(corner: seq<int>)
    /** The IndexError of a corner index outside its list. */
    | IndexOutOfRange(index: int)

  // ---------------------------------------------------------------------
  // Strings

  /** `s.strip()`. */
  function Strip(s: string): (r: string)
    ensures |r| <= |s|
    decreases |s|
  {
    if |s| > 0 && s[0] in STRIP_CHARS then Strip(s[1..])
    else if |s| > 0 && s[|s| - 1] in STRIP_CHARS then Strip(s[..|s| - 1])
    else s
  }

  /** Whitespace only, as `strip` counts it. */
  predicate Blank(w: string)
  {
    forall i | 0 <= i < |w| :: w[i] in STRIP_CHARS
  }

  /** What `strip` keeps is the slice `s[i..j]` of the line; only whitespace lies outside it. */
  lemma {:induction false} StripIsSlice(s: string) returns (i: nat, j: nat)
    ensures i <= j <= |s| && Strip(s) == s[i..j]
    ensures Blank(s[..i]) && Blank(s[j..])
    decreases |s|
  {
    if |s| > 0 && s[0] in STRIP_CHARS {
      i, j := StripIsSlice(s[1..]);
      assert s[1..][..i] == s[1..i + 1] && s[1..][j..] == s[j + 1..];
      i, j := i + 1, j + 1;
    } else if |s| > 0 && s[|s| - 1] in STRIP_CHARS {
      i, j := StripIsSlice(s[..|s| - 1]);
      assert s[..|s| - 1][..i] == s[..i];
      assert s[j..] == s[..|s| - 1][j..] + [s[|s| - 1]];
    } else {
      i, j := 0, |s|;
    }
  }

  /** What `strip` keeps neither starts nor ends with whitespace. */
  lemma {:induction false} StripEnds(s: string)
    ensures |Strip(s)| > 0 ==> Strip(s)[0] !in STRIP_CHARS && Strip(s)[|Strip(s)| - 1] !in STRIP_CHARS
    decreases |s|
  {
    if |s| > 0 && s[0] in STRIP_CHARS {
      StripEnds(s[1..]);
    } else if |s| > 0 && s[|s| - 1] in STRIP_CHARS {
      StripEnds(s[..|s| - 1]);
    }
  }

  /** A line is the whitespace `strip` removes in front, what it keeps, and the whitespace behind. */
  lemma StripParts(s: string) returns (w: string, t: string, v: string)
    ensures s == w + t + v && t == Strip(s) && Blank(w) && Blank(v)
  {
    var i, j := StripIsSlice(s);
    w, t, v := s[..i], s[i..j], s[j..];
    assert s == w + t + v;
  }

  lemma Regroup(w: string, t: string, v: string, sign: string, u: string, d: string)
    requires t == sign + u + d
    ensures w + t + v == w + sign + u + d + v
  {
  }

  /** Whitespace around a text that neither starts nor ends with whitespace is what `strip` removes. */
  lemma {:induction false} StripAround(w: string, x: string, v: string)
    requires Blank(w) && Blank(v) && |x| > 0 && x[0] !in STRIP_CHARS && x[|x| - 1] !in STRIP_CHARS
    ensures Strip(w + x + v) == x
    decreases |w| + |v|
  {
    if |w| > 0 {
      assert (w + x + v)[0] == w[0];
      assert (w + x + v)[1..] == w[1..] + x + v;
      StripAround(w[1..], x, v);
    } else if |v| > 0 {
      assert w + x + v == x + v;
      assert (x + v)[0] == x[0];
      assert (x + v)[..|x + v| - 1] == x + v[..|v| - 1];
      assert x + v[..|v| - 1] == w + x + v[..|v| - 1];
      StripAround(w, x, v[..|v| - 1]);
    } else {
      assert w + x + v == x;
    }
  }

  /** Leading whitespace dropped, as `int` skips it after a sign. */
  function LStrip(s: string): (r: string)
    ensures |r| <= |s| && s[|s| - |r|..] == r && Blank(s[..|s| - |r|])
    ensures |r| > 0 ==> r[0] !in STRIP_CHARS
    decreases |s|
  {
    if |s| > 0 && s[0] in STRIP_CHARS then
      var r := LStrip(s[1..]);
      var k := |s| - |r|;
      assert s[1..][k - 1..] == s[k..];
      assert s[..k] == [s[0]] + s[1..][..k - 1];
      r
    else s
  }

  /** `LStrip` removes exactly the whitespace before a text that does not start with any. */
  lemma {:induction false} LStripBefore(w: string, x: string)
    requires Blank(w) && (|x| == 0 || x[0] !in STRIP_CHARS)
    ensures LStrip(w + x) == x
    decreases |w|
  {
    if |w| > 0 {
      assert (w + x)[1..] == w[1..] + x;
      LStripBefore(w[1..], x);
    } else {
      assert w + x == x;
    }
  }

  /**
   * Python 2's `int(s)` in base 10: surrounding whitespace, an optional
   * sign that whitespace may follow, then one or more decimal digits.
   */
  function PyInt(s: string): (r: Option<int>)
  {
    SignedDigits(Strip(s))
  }

  /** The stripped text `int` reads: an optional sign, whitespace after a sign, then the digits. */
  function SignedDigits(t: string): (r: Option<int>)
  {
    if |t| > 0 && (t[0] == '+' || t[0] == '-') then AfterSign(t[0], LStrip(t[1..]))
    else Digits(t)
  }

  /** What `int` makes of the digits after a sign, once the whitespace after the sign is dropped. */
  function AfterSign(sign: char, body: string): Option<int>
  {
    if |body| > 0 && FbxParser.AllDigits(body) then
      Some(if sign == '-' then -(FbxParser.Decimal(body) as int) else FbxParser.Decimal(body))
    else None
  }

  /** What `int` makes of a text with no sign: one or more digits. */
  function Digits(t: string): Option<int>
  {
    if |t| > 0 && FbxParser.AllDigits(t) then Some(FbxParser.Decimal(t)) else None
  }

  /** The signs `int` accepts before the digits: none, '+' or '-'. */
  predicate IsSign(sign: string)
  {
    |sign| <= 1 && (|sign| == 1 ==> sign[0] == '+' || sign[0] == '-')
  }

  /** The value of digits d after a sign. */
  function Signed(sign: string, d: string): int
    requires FbxParser.AllDigits(d)
  {
    if sign == ['-'] then -(FbxParser.Decimal(d) as int) else FbxParser.Decimal(d)
  }

  /** A sign, whitespace (only after a sign), then digits, read as their signed value. */
  lemma SignedDigitsAccepts(sign: string, u: string, d: string)
    requires Blank(u) && IsSign(sign) && (sign == [] ==> u == [])
    requires |d| > 0 && FbxParser.AllDigits(d)
    ensures SignedDigits(sign + u + d) == Some(Signed(sign, d))
  {
    if sign != [] {
      assert sign == ['-'] <==> sign[0] == '-';
      SignThenDigits(sign, u, d);
    } else {
      assert sign + u + d == d;
      UnsignedDigits(d);
    }
  }

  /** Digits with no sign read as their decimal value. */
  lemma UnsignedDigits(d: string)
    requires |d| > 0 && FbxParser.AllDigits(d)
    ensures SignedDigits(d) == Some(FbxParser.Decimal(d))
  {
    assert d[0] in FbxParser.DIGITS;
    calc {
      SignedDigits(d);
      { assert !(d[0] == '+' || d[0] == '-'); }
      Digits(d);
      Some(FbxParser.Decimal(d));
    }
  }

  /** A sign and the digits after it, whitespace between them. */
  lemma SignThenDigits(sign: string, u: string, d: string)
    requires Blank(u) && |sign| == 1 && (sign[0] == '+' || sign[0] == '-')
    requires |d| > 0 && FbxParser.AllDigits(d)
    ensures SignedDigits(sign + u + d) == Some(if sign[0] == '-' then -(FbxParser.Decimal(d) as int) else FbxParser.Decimal(d))
  {
    var t := sign + u + d;
    assert t[0] == sign[0];
    StripAfterSign(sign, u, d);
    SignedBody(t, d);
  }

  /** A text that starts with a sign reads as the digits left once whitespace after the sign is stripped. */
  lemma SignedBody(t: string, body: string)
    requires |t| > 0 && (t[0] == '+' || t[0] == '-') && LStrip(t[1..]) == body
    requires |body| > 0 && FbxParser.AllDigits(body)
    ensures SignedDigits(t) == Some(if t[0] == '-' then -(FbxParser.Decimal(body) as int) else FbxParser.Decimal(body))
  {
    calc {
      SignedDigits(t);
      AfterSign(t[0], LStrip(t[1..]));
      AfterSign(t[0], body);
    }
  }

  /** After the sign, `int` skips exactly the whitespace before the digits. */
  lemma StripAfterSign(sign: string, u: string, d: string)
    requires Blank(u) && |sign| == 1 && |d| > 0 && FbxParser.AllDigits(d)
    ensures LStrip((sign + u + d)[1..]) == d
  {
    assert (sign + u + d)[1..] == u + d;
    assert d[0] in FbxParser.DIGITS;
    LStripBefore(u, d);
  }

  /** `int` reads every text of that shape, with whitespace around it, as its signed decimal value. */
  lemma PyIntAccepts(w: string, sign: string, u: string, d: string, v: string)
    requires Blank(w) && Blank(u) && Blank(v) && IsSign(sign) && (sign == [] ==> u == [])
    requires |d| > 0 && FbxParser.AllDigits(d)
    ensures PyInt(w + sign + u + d + v) == Some(Signed(sign, d))
  {
    var x := sign + u + d;
    assert d[0] in FbxParser.DIGITS && d[|d| - 1] in FbxParser.DIGITS;
    assert x[|x| - 1] == d[|d| - 1];
    assert x[0] !in STRIP_CHARS by {
      if sign == [] {
        assert x[0] == d[0];
      } else {
        assert x[0] == sign[0];
      }
    }
    assert w + sign + u + d + v == w + x + v;
    StripAround(w, x, v);
    SignedDigitsAccepts(sign, u, d);
  }

  /** Every stripped text `int` accepts is a sign, whitespace and digits. */
  lemma SignedDigitsShape(t: string) returns (sign: string, u: string, d: string)
    requires SignedDigits(t).Some?
    ensures t == sign + u + d
    ensures Blank(u) && IsSign(sign) && (sign == [] ==> u == [])
    ensures |d| > 0 && FbxParser.AllDigits(d) && SignedDigits(t) == Some(Signed(sign, d))
  {
    if t[0] == '+' || t[0] == '-' {
      sign, u, d := SplitAfterSign(t);
      assert sign == ['-'] <==> t[0] == '-';
    } else {
      sign, u, d := [], [], t;
    }
  }

  /** A text that starts with a sign: the sign, the whitespace after it, and the rest. */
  lemma SplitAfterSign(t: string) returns (sign: string, u: string, d: string)
    requires |t| > 0 && (t[0] == '+' || t[0] == '-')
    ensures t == sign + u + d && sign == [t[0]] && Blank(u) && d == LStrip(t[1..])
  {
    sign := [t[0]];
    u, d := SplitLStrip(t[1..]);
    SignThenRest(t, u, d);
  }

  /** A text is its first character followed by the rest. */
  lemma SignThenRest(t: string, u: string, d: string)
    requires |t| > 0 && t[1..] == u + d
    ensures t == [t[0]] + u + d
  {
    assert t == [t[0]] + t[1..];
  }

  /** A text is the whitespace `LStrip` drops followed by what it keeps. */
  lemma SplitLStrip(s: string) returns (u: string, d: string)
    ensures s == u + d && Blank(u) && d == LStrip(s)
  {
    d := LStrip(s);
    u := s[..|s| - |d|];
    assert s[|s| - |d|..] == d;
    assert s == u + s[|s| - |d|..];
  }

  /** Every text `int` accepts has that shape, with whitespace around it. */
  lemma PyIntShape(s: string) returns (w: string, sign: string, u: string, d: string, v: string)
    requires PyInt(s).Some?
    ensures s == w + sign + u + d + v
    ensures Blank(w) && Blank(u) && Blank(v) && IsSign(sign) && (sign == [] ==> u == [])
    ensures |d| > 0 && FbxParser.AllDigits(d) && PyInt(s) == Some(Signed(sign, d))
  {
    var t;
    w, t, v := StripParts(s);
    sign, u, d := SignedDigitsShape(t);
    Regroup(w, t, v, sign, u, d);
  }

  /** Whitespace around a number and after its sign is accepted; a sign alone, or an empty field, is not. */
  lemma PyIntExamples()
    ensures PyInt([' ', '-', ' ', '1', '2', '\t']) == Some(-12)
    ensures PyInt([]) == None && PyInt(['-']) == None
  {
    PyIntSpaced();
    PyIntRejects();
  }

  /** " - 12\t" reads as -12. */
  lemma PyIntSpaced()
    ensures PyInt([' ', '-', ' ', '1', '2', '\t']) == Some(-12)
  {
    assert [' '] + ['-'] + [' '] + ['1', '2'] + ['\t'] == [' ', '-', ' ', '1', '2', '\t'];
    PyIntAccepts([' '], ['-'], [' '], ['1', '2'], ['\t']);
    NegativeTwelve();
  }

  /** The digits "12" after a '-' stand for -12. */
  lemma NegativeTwelve()
    ensures Signed(['-'], ['1', '2']) == -12
  {
    assert ['1', '2'][..1] == ['1'];
    assert ['1'][..0] == [];
  }

  /** An empty field and a sign alone are not integers. */
  lemma PyIntRejects()
    ensures PyInt([]) == None && PyInt(['-']) == None
  {
    assert Strip(['-']) == ['-'];
    assert ['-'][1..] == [];
  }

  /** `s.split(c)`: the pieces between the separators; an empty string is one empty piece. */
  function Split(s: string, c: char): (r: seq<string>)
    ensures |r| >= 1
    decreases |s|
  {
    if |s| == 0 then [[]]
    else
      var rest := Split(s[1..], c);
      if s[0] == c then [[]] + rest else [[s[0]] + rest[0]] + rest[1..]
  }

  /** `c.join(pieces)`. */
  function Join(pieces: seq<string>, c: char): string
    requires |pieces| >= 1
    decreases |pieces|
  {
    if |pieces| == 1 then pieces[0] else pieces[0] + [c] + Join(pieces[1..], c)
  }

  /** Splitting loses nothing: joining the pieces gives the string back, and no piece holds the separator. */
  lemma {:induction false} SplitJoin(s: string, c: char)
    ensures Join(Split(s, c), c) == s
    ensures forall k | 0 <= k < |Split(s, c)| :: c !in Split(s, c)[k]
    decreases |s|
  {
    if |s| > 0 {
      var rest := Split(s[1..], c);
      SplitJoin(s[1..], c);
      if s[0] == c {
        assert Split(s, c)[1..] == rest;
      } else {
        var r := Split(s, c);
        if |rest| == 1 {
          assert Join(r, c) == [s[0]] + rest[0];
        } else {
          assert r[1..] == rest[1..];
          assert Join(r, c) == [s[0]] + rest[0] + [c] + Join(rest[1..], c);
        }
        assert s == [s[0]] + s[1..];
        forall k | 0 <= k < |r|
          ensures c !in r[k]
        {
          if k > 0 {
            assert r[k] == rest[k];
          }
        }
      }
    }
  }

  /** The tokens of a line: stripped, then split on single spaces. */
  function Tokens(line: string): (r: seq<string>)
    ensures |r| >= 1
  {
    Split(Strip(line), ' ')
  }

  // ---------------------------------------------------------------------
  // parse_obj

  /** `tuple(int(n) for n in field.split('/'))` over the fields of an 'f' line. */
  function Ints(texts: seq<string>): (r: Result<seq<int>, ObjError>)
    ensures r.Success? ==> |r.value| == |texts|
  {
    if |texts| == 0 then Success([])
    else
      match PyInt(texts[0])
      case None => Failure(BadInteger(texts[0]))
      case Some(n) =>
        match Ints(texts[1..])
        case Failure(e) => Failure(e)
        case Success(ns) => Success([n] + ns)
  }

  /**
   * `int` over the texts: their values when `int` accepts every one, and
   * otherwise the ValueError of the first text it rejects.
   */
  lemma {:induction false} IntsMeaning(texts: seq<string>)
    ensures Ints(texts).Success? <==> forall k | 0 <= k < |texts| :: PyInt(texts[k]).Some?
    ensures Ints(texts).Success? ==> forall k | 0 <= k < |texts| :: PyInt(texts[k]) == Some(Ints(texts).value[k])
    ensures Ints(texts).Failure? ==> exists k | 0 <= k < |texts| ::
      Ints(texts).error == BadInteger(texts[k]) && PyInt(texts[k]).None? && forall j | 0 <= j < k :: PyInt(texts[j]).Some?
    decreases |texts|
  {
    if |texts| > 0 {
      IntsMeaning(texts[1..]);
      assert forall k | 1 <= k < |texts| :: texts[1..][k - 1] == texts[k];
      if PyInt(texts[0]).Some? && Ints(texts[1..]).Failure? {
        var k :| 0 <= k < |texts| - 1 && Ints(texts[1..]).error == BadInteger(texts[1..][k]) &&
          PyInt(texts[1..][k]).None? && forall j | 0 <= j < k :: PyInt(texts[1..][j]).Some?;
        assert PyInt(texts[k + 1]).None?;
      }
    }
  }

  /** One field of an 'f' line: `tuple(int(n) for n in field.split('/'))`. */
  function Corner(field: string): Result<seq<int>, ObjError>
  {
    Ints(Split(field, '/'))
  }

  /** The corners of an 'f' line, one per field. */
  function Face(fields: seq<string>): (r: Result<seq<seq<int>>, ObjError>)
    ensures r.Success? ==> |r.value| == |fields|
  {
    if |fields| == 0 then Success([])
    else
      match Corner(fields[0])
      case Failure(e) => Failure(e)
      case Success(corner) =>
        match Face(fields[1..])
        case Failure(e) => Failure(e)
        case Success(corners) => Success([corner] + corners)
  }

  /** An 'f' line gives the corner of every field, or the error of the first field that is not one. */
  lemma {:induction false} FaceMeaning(fields: seq<string>)
    ensures Face(fields).Success? <==> forall k | 0 <= k < |fields| :: Corner(fields[k]).Success?
    ensures Face(fields).Success? ==> forall k | 0 <= k < |fields| :: Corner(fields[k]) == Success(Face(fields).value[k])
    ensures Face(fields).Failure? ==> exists k | 0 <= k < |fields| ::
      Corner(fields[k]) == Failure(Face(fields).error) && forall j | 0 <= j < k :: Corner(fields[j]).Success?
    decreases |fields|
  {
    if |fields| > 0 {
      FaceMeaning(fields[1..]);
      assert forall k | 1 <= k < |fields| :: fields[1..][k - 1] == fields[k];
      if Corner(fields[0]).Success? && Face(fields[1..]).Failure? {
        var k :| 0 <= k < |fields| - 1 && Corner(fields[1..][k]) == Failure(Face(fields[1..]).error) &&
          forall j | 0 <= j < k :: Corner(fields[1..][j]).Success?;
        assert Corner(fields[k + 1]) == Failure(Face(fields).error);
      }
    }
  }

  /** One line of `parse_obj`; lines with any other first token are ignored. */
  function LineStep(m: ObjMesh, line: string): (r: Result<ObjMesh, ObjError>)
  {
    var items := Tokens(line);
    if items[0] == "v" then Success(m.(vertices := m.vertices + [items[1..]]))
    else if items[0] == "vt" then Success(m.(texcoords := m.texcoords + [items[1..]]))
    else if items[0] == "vn" then Success(m.(normals := m.normals + [items[1..]]))
    else if items[0] == "f" then
      match Face(items[1..])
      case Failure(e) => Failure(e)
      case Success(corners) => Success(m.(tris := m.tris + [corners]))
    else if items[0] == "g" then
      if |items| < 2 then Failure(MissingName) else Success(m.(name := items[1]))
    else Success(m)
  }

  /** The lines of a file read into a mesh, from a mesh already read. */
  function ParseFrom(m: ObjMesh, lines: seq<string>): (r: Result<ObjMesh, ObjError>)
    decreases |lines|
  {
    if |lines| == 0 then Success(m)
    else
      match LineStep(m, lines[0])
      case Failure(e) => Failure(e)
      case Success(next) => ParseFrom(next, lines[1..])
  }

  /** `parse_obj` over the lines of a file. */
  function ParseLines(lines: seq<string>): (r: Result<ObjMesh, ObjError>)
  {
    ParseFrom(EMPTY_MESH, lines)
  }

  /** The coordinates of the lines whose first token is `tag`, in file order. */
  function Records(lines: seq<string>, tag: string): seq<seq<string>>
  {
    if |lines| == 0 then []
    else
      var items := Tokens(lines[0]);
      (if items[0] == tag then [items[1..]] else []) + Records(lines[1..], tag)
  }

  /** The second token of the last 'g' line, or `name` when there is none. */
  function LastName(name: string, lines: seq<string>): string
    decreases |lines|
  {
    if |lines| == 0 then name
    else
      var items := Tokens(lines[0]);
      LastName(if items[0] == "g" && |items| >= 2 then items[1] else name, lines[1..])
  }

  /** One line adds its coordinates to the list its first token names. */
  lemma LineCoordinates(m: ObjMesh, line: string)
    requires LineStep(m, line).Success?
    ensures var items := Tokens(line);
      && LineStep(m, line).value.vertices == m.vertices + (if items[0] == "v" then [items[1..]] else [])
      && LineStep(m, line).value.texcoords == m.texcoords + (if items[0] == "vt" then [items[1..]] else [])
      && LineStep(m, line).value.normals == m.normals + (if items[0] == "vn" then [items[1..]] else [])
  {
    var items := Tokens(line);
    assert m.vertices + [] == m.vertices && m.texcoords + [] == m.texcoords && m.normals + [] == m.normals;
  }

  /** Every 'v', 'vt' and 'vn' line adds its coordinates, in file order. */
  lemma {:induction false} ParsedCoordinatesFrom(m: ObjMesh, lines: seq<string>)
    requires ParseFrom(m, lines).Success?
    ensures ParseFrom(m, lines).value.vertices == m.vertices + Records(lines, "v")
    ensures ParseFrom(m, lines).value.texcoords == m.texcoords + Records(lines, "vt")
    ensures ParseFrom(m, lines).value.normals == m.normals + Records(lines, "vn")
    decreases |lines|
  {
    if |lines| > 0 {
      var next := LineStep(m, lines[0]).value;
      LineCoordinates(m, lines[0]);
      ParsedCoordinatesFrom(next, lines[1..]);
    }
  }

  /** The name of a parsed mesh is that of the last 'g' line. */
  lemma {:induction false} ParsedNameFrom(m: ObjMesh, lines: seq<string>)
    requires ParseFrom(m, lines).Success?
    ensures ParseFrom(m, lines).value.name == LastName(m.name, lines)
    decreases |lines|
  {
    if |lines| > 0 {
      var next := LineStep(m, lines[0]).value;
      ParsedNameFrom(next, lines[1..]);
    }
  }

  /** A parsed file holds the coordinates of its 'v', 'vt' and 'vn' lines in file order, and the last group's name. */
  lemma ParsedRecords(lines: seq<string>)
    requires ParseLines(lines).Success?
    ensures ParseLines(lines).value.vertices == Records(lines, "v")
    ensures ParseLines(lines).value.texcoords == Records(lines, "vt")
    ensures ParseLines(lines).value.normals == Records(lines, "vn")
    ensures ParseLines(lines).value.name == LastName(DEFAULT_NAME, lines)
  {
    ParsedCoordinatesFrom(EMPTY_MESH, lines);
    ParsedNameFrom(EMPTY_MESH, lines);
  }

  /** `parse_obj`. */
  method ParseObj(lines: seq<string>) returns (r: Result<ObjMesh, ObjError>)
    ensures r == ParseLines(lines)
  {
    var vertices: seq<seq<string>> := [];
    var texcoords: seq<seq<string>> := [];
    var normals: seq<seq<string>> := [];
    var tris: seq<seq<seq<int>>> := [];
    var name := DEFAULT_NAME;
    for i := 0 to |lines|
      invariant ParseLines(lines) == ParseFrom(ObjMesh(vertices, texcoords, normals, tris, name), lines[i..])
    {
      assert lines[i..][0] == lines[i] && lines[i..][1..] == lines[i + 1..];
      var items := Tokens(lines[i]);
      if items[0] == "v" {
        vertices := vertices + [items[1..]];
      } else if items[0] == "vt" {
        texcoords := texcoords + [items[1..]];
      } else if items[0] == "vn" {
        normals := normals + [items[1..]];
      } else if items[0] == "f" {
        var face := Face(items[1..]);
        if face.Failure? {
          return Failure(face.error);
        }
        tris := tris + [face.value];
      } else if items[0] == "g" {
        if |items| < 2 {
          return Failure(MissingName);
        }
        name := items[1];
      }
    }
    return Success(ObjMesh(vertices, texcoords, normals, tris, name));
  }

  // ---------------------------------------------------------------------
  // OBJMesh.make_flattened_dict

  /** Python indexing: a negative index counts from the end. */
  function PyIndex<T>(s: seq<T>, k: int): (r: Option<T>)
    ensures r.Some? <==> -|s| <= k < |s|
    ensures 0 <= k < |s| ==> r == Some(s[k])
  {
    if 0 <= k < |s| then Some(s[k]) else if -|s| <= k < 0 then Some(s[|s| + k]) else None
  }

  datatype Flat = Flat(vertices: seq<string>, texcoords: seq<string>, normals: seq<string>)

  /** The dictionary `make_flattened_dict` returns; texture coordinates and normals sit under the key ''. */
  datatype FlattenedDict = FlattenedDict(vertices: seq<string>, texcoords: map<string, seq<string>>, normals: map<string, seq<string>>)

  /** One corner (vi, ti, ni): the position, texture coordinate and normal it names, 1-based. */
  function CornerStep(m: ObjMesh, acc: Flat, corner: seq<int>): (r: Result<Flat, ObjError>)
  {
    if |corner| != 3 then Failure(BadCorner(corner))
    else
      match (PyIndex(m.vertices, corner[0] - 1), PyIndex(m.texcoords, corner[1] - 1), PyIndex(m.normals, corner[2] - 1))
      case (None, _, _) => Failure(IndexOutOfRange(corner[0] - 1))
      case (Some(_), None, _) => Failure(IndexOutOfRange(corner[1] - 1))
      case (Some(_), Some(_), None) => Failure(IndexOutOfRange(corner[2] - 1))
      case (Some(v), Some(t), Some(n)) => Success(Flat(acc.vertices + v, acc.texcoords + t, acc.normals + n))
  }

  /** The corners in order, after the ones already gathered into `acc`. */
  function FlatFrom(m: ObjMesh, acc: Flat, corners: seq<seq<int>>): (r: Result<Flat, ObjError>)
    decreases |corners|
  {
    if |corners| == 0 then Success(acc)
    else
      match CornerStep(m, acc, corners[0])
      case Failure(e) => Failure(e)
      case Success(next) => FlatFrom(m, next, corners[1..])
  }

  function Concat<T>(ls: seq<seq<T>>): seq<T>
  {
    if |ls| == 0 then [] else ls[0] + Concat(ls[1..])
  }

  const NOTHING_GATHERED := Flat([], [], [])

  function Flattened(m: ObjMesh): (r: Result<FlattenedDict, ObjError>)
  {
    match FlatFrom(m, NOTHING_GATHERED, Concat(m.tris))
    case Failure(e) => Failure(e)
    case Success(f) => Success(FlattenedDict(f.vertices, map["" := f.texcoords], map["" := f.normals]))
  }

  /** A corner whose three indices lie in 1..length of their lists. */
  predicate InRange(m: ObjMesh, corner: seq<int>)
  {
    |corner| == 3 && 1 <= corner[0] <= |m.vertices| && 1 <= corner[1] <= |m.texcoords| && 1 <= corner[2] <= |m.normals|
  }

  predicate AllInRange(m: ObjMesh, corners: seq<seq<int>>)
  {
    |corners| == 0 || (InRange(m, corners[0]) && AllInRange(m, corners[1..]))
  }

  /** The positions the corners name, 1-based. */
  function Positions(m: ObjMesh, corners: seq<seq<int>>): seq<string>
    requires AllInRange(m, corners)
  {
    if |corners| == 0 then [] else m.vertices[corners[0][0] - 1] + Positions(m, corners[1..])
  }

  /** With every corner in range, flattening succeeds and adds the named vertices in corner order. */
  lemma {:induction false} FlattenedPositions(m: ObjMesh, acc: Flat, corners: seq<seq<int>>)
    requires AllInRange(m, corners)
    ensures FlatFrom(m, acc, corners).Success?
    ensures FlatFrom(m, acc, corners).value.vertices == acc.vertices + Positions(m, corners)
    decreases |corners|
  {
    if |corners| > 0 {
      var next := CornerStep(m, acc, corners[0]).value;
      FlattenedPositions(m, next, corners[1..]);
    }
  }

  /** A corner index 0 reads the last element, as Python's index -1 does. */
  lemma ZeroIndexReadsLast(m: ObjMesh)
    requires |m.vertices| > 0 && |m.texcoords| > 0 && |m.normals| > 0
    ensures FlatFrom(m, NOTHING_GATHERED, [[0, 0, 0]]) == Success(Flat(m.vertices[|m.vertices| - 1], m.texcoords[|m.texcoords| - 1], m.normals[|m.normals| - 1]))
  {
    var v, t, n := m.vertices[|m.vertices| - 1], m.texcoords[|m.texcoords| - 1], m.normals[|m.normals| - 1];
    assert CornerStep(m, NOTHING_GATHERED, [0, 0, 0]) == Success(Flat([] + v, [] + t, [] + n));
    assert [] + v == v && [] + t == t && [] + n == n;
    assert [[0, 0, 0]][1..] == [];
  }

  /** `make_flattened_dict`. */
  method MakeFlattenedDict(m: ObjMesh) returns (r: Result<FlattenedDict, ObjError>)
    ensures r == Flattened(m)
  {
    var vertices: seq<string> := [];
    var texcoords: seq<string> := [];
    var normals: seq<string> := [];
    for t := 0 to |m.tris|
      invariant FlatFrom(m, NOTHING_GATHERED, Concat(m.tris)) == FlatFrom(m, Flat(vertices, texcoords, normals), Concat(m.tris[t..]))
    {
      var triangle := m.tris[t];
      assert m.tris[t..][0] == triangle && m.tris[t..][1..] == m.tris[t + 1..];
      ghost var later := Concat(m.tris[t + 1..]);
      assert triangle[0..] == triangle;
      for c := 0 to |triangle|
        invariant FlatFrom(m, NOTHING_GATHERED, Concat(m.tris)) == FlatFrom(m, Flat(vertices, texcoords, normals), triangle[c..] + later)
      {
        var corner := triangle[c];
        assert (triangle[c..] + later)[0] == corner && (triangle[c..] + later)[1..] == triangle[c + 1..] + later;
        if |corner| != 3 {
          return Failure(BadCorner(corner));
        }
        var v := PyIndex(m.vertices, corner[0] - 1);
        var tc := PyIndex(m.texcoords, corner[1] - 1);
        var n := PyIndex(m.normals, corner[2] - 1);
        if v.None? {
          return Failure(IndexOutOfRange(corner[0] - 1));
        }
        if tc.None? {
          return Failure(IndexOutOfRange(corner[1] - 1));
        }
        if n.None? {
          return Failure(IndexOutOfRange(corner[2] - 1));
        }
        vertices := vertices + v.value;
        texcoords := texcoords + tc.value;
        normals := normals + n.value;
      }
      assert triangle[|triangle|..] + later == later;
    }
    return Success(FlattenedDict(vertices, map["" := texcoords], map["" := normals]));
  }
}
