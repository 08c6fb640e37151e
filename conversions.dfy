/**
 * `as<T>(object)` and the `convert` overloads behind it. Each conversion
 * asserts the tag it needs (the assertion aborts the program; here it is
 * a Failure naming the assertion). Integer conversions take the stored
 * int64 and cast it to the target width; floating conversions take the
 * stored double; vectors and maps convert every element with `as<T>`.
 */
module Conversions {
  import opened Wrappers
  import opened ByteOrder
  import opened DataObject
  import opened Division

  datatype ConvertError =
    | NotBoolean
    | NotIntegral
    | NotFloating
    | NotString
    | NotArray
    | NotDictionary

  /** A double narrowed to a float, `(float)d`; never computed with. */
  datatype Single = NarrowedFrom(d: Double)

  /** The bytes of the C++ integer types this model uses: 4 (int) and 8 (long long). */
  predicate IntWidth(width: nat)
  {
    width == 4 || width == 8
  }

  /** The cast of an integer to an unsigned type of `width` bytes: its value modulo 256^width. */
  function UnsignedCast(n: int, width: nat): (r: nat)
    requires IntWidth(width)
    ensures r < Pow256(width)
    ensures n == (n / Pow256(width)) * Pow256(width) + r
  {
    n % Pow256(width)
  }

  /**
   * The cast of an integer to a signed type of `width` bytes: the value of
   * its low `width` bytes in two's complement.
   */
  function SignedCast(n: int, width: nat): (r: int)
    requires IntWidth(width)
    ensures -(Pow256(width) / 2) <= r < Pow256(width) / 2
    ensures r == UnsignedCast(n, width) || r == UnsignedCast(n, width) - Pow256(width)
  {
    Pow256Values();
    var u := UnsignedCast(n, width);
    if u >= Pow256(width) / 2 then u - Pow256(width) else u
  }

  /** A value the target type can hold goes through either cast unchanged. */
  lemma CastsKeepInRange(n: int, width: nat)
    requires IntWidth(width)
    ensures -(Pow256(width) / 2) <= n < Pow256(width) / 2 ==> SignedCast(n, width) == n
    ensures 0 <= n < Pow256(width) ==> UnsignedCast(n, width) == n
  {
    Pow256Values();
    var m := Pow256(width);
    if 0 <= n < m {
      DivModUnique(n, m, 0, n);
    } else if -(m / 2) <= n < 0 {
      DivModUnique(n, m, -1, n + m);
    }
  }

  /**
   * The signed cast reads the low `width` bytes that the unsigned cast
   * keeps, as a two's-complement number.
   */
  lemma SignedCastIsLowBytes(n: int, width: nat)
    requires IntWidth(width)
    ensures SignedCast(n, width) == DecodeSigned(EncodeUnsigned(UnsignedCast(n, width), width))
  {
  }

  /** `convert(object, bool *)`. */
  function AsBool(o: Object): (r: Result<bool, ConvertError>)
    ensures r.Success? <==> o.tag == Boolean
    ensures r.Success? ==> Active(o) == BoolValue(r.value)
    ensures r.Failure? ==> r.error == NotBoolean
  {
    if o.tag == Boolean then Success(o.boolean) else Failure(NotBoolean)
  }

  /** The int64 of an IntOrFloat object cast to `width` bytes, signed or not. */
  function AsInteger(o: Object, width: nat, signed: bool): (r: Result<int, ConvertError>)
    requires IntWidth(width)
    ensures r.Success? <==> o.tag == IntOrFloat
    ensures r.Success? ==> Active(o).int64 == o.int64
    ensures r.Success? ==> r.value == UnsignedCast(o.int64, width) || r.value == UnsignedCast(o.int64, width) - Pow256(width)
    ensures r.Success? && signed ==> -(Pow256(width) / 2) <= r.value < Pow256(width) / 2
    ensures r.Success? && !signed ==> 0 <= r.value < Pow256(width)
    ensures r.Failure? ==> r.error == NotIntegral
  {
    if o.tag != IntOrFloat then Failure(NotIntegral)
    else if signed then Success(SignedCast(o.int64, width))
    else Success(UnsignedCast(o.int64, width))
  }

  /** `convert(object, int *)`: `(int)object.int64`. */
  function AsInt(o: Object): (r: Result<int, ConvertError>)
    ensures r.Success? <==> o.tag == IntOrFloat
    ensures r.Success? ==> -0x8000_0000 <= r.value < 0x8000_0000 && r.value == SignedCast(o.int64, 4)
  {
    Pow256Values();
    AsInteger(o, 4, true)
  }

  /** `convert(object, unsigned int *)`: `(unsigned int)object.int64`. */
  function AsUnsignedInt(o: Object): (r: Result<int, ConvertError>)
    ensures r.Success? <==> o.tag == IntOrFloat
    ensures r.Success? ==> 0 <= r.value < 0x1_0000_0000 && r.value == UnsignedCast(o.int64, 4)
  {
    Pow256Values();
    AsInteger(o, 4, false)
  }

  /**
   * `convert(object, long *)`, with `long` of `longWidth` bytes: 4 on the
   * 32-bit Emscripten target, 8 on 64-bit Apple targets.
   */
  function AsLong(o: Object, longWidth: nat): (r: Result<int, ConvertError>)
    requires IntWidth(longWidth)
    ensures r == AsInteger(o, longWidth, true)
    ensures longWidth == 8 && r.Success? ==> r.value == o.int64
  {
    Pow256Values();
    CastsKeepInRange(o.int64, longWidth);
    AsInteger(o, longWidth, true)
  }

  /** `convert(object, unsigned long *)`, with `long` of `longWidth` bytes. */
  function AsUnsignedLong(o: Object, longWidth: nat): (r: Result<int, ConvertError>)
    requires IntWidth(longWidth)
    ensures r == AsInteger(o, longWidth, false)
  {
    AsInteger(o, longWidth, false)
  }

  /** `convert(object, long long *)`: the int64 itself. */
  function AsLongLong(o: Object): (r: Result<int, ConvertError>)
    ensures r.Success? <==> o.tag == IntOrFloat
    ensures r.Success? ==> Active(o).int64 == r.value
  {
    if o.tag == IntOrFloat then Success(o.int64) else Failure(NotIntegral)
  }

  /** `convert(object, double *)`: the stored double of an IntOrFloat or a Float. */
  function AsDouble(o: Object): (r: Result<Double, ConvertError>)
    ensures r.Success? <==> o.tag == IntOrFloat || o.tag == Float
    ensures r.Success? ==> Active(o).float64 == r.value
    ensures r.Failure? ==> r.error == NotFloating
  {
    if o.tag == IntOrFloat || o.tag == Float then Success(o.float64) else Failure(NotFloating)
  }

  /** `convert(object, float *)`: the stored double narrowed to a float. */
  function AsFloat(o: Object): (r: Result<Single, ConvertError>)
    ensures r.Success? <==> AsDouble(o).Success?
    ensures r.Success? ==> r.value == NarrowedFrom(AsDouble(o).value)
  {
    match AsDouble(o)
    case Success(d) => Success(NarrowedFrom(d))
    case Failure(e) => Failure(e)
  }

  /** `convert(object, std::string *)`. */
  function AsString(o: Object): (r: Result<seq<Byte>, ConvertError>)
    ensures r.Success? <==> o.tag == String
    ensures r.Success? ==> Active(o) == StringValue(r.value)
    ensures r.Failure? ==> r.error == NotString
  {
    if o.tag == String then Success(o.bytes) else Failure(NotString)
  }

  /** A number made by make_int converts to its own value at every width that holds it. */
  lemma MadeIntConverts(n: Int64)
    ensures AsLongLong(MakeInt(n)) == Success(n)
    ensures AsDouble(MakeInt(n)) == Success(NearestTo(n))
    ensures -0x8000_0000 <= n < 0x8000_0000 ==> AsInt(MakeInt(n)) == Success(n)
    ensures 0 <= n < 0x1_0000_0000 ==> AsUnsignedInt(MakeInt(n)) == Success(n)
  {
    Pow256Values();
    CastsKeepInRange(n, 4);
  }

  /** The elements converted one after another; the first that cannot be converted stops the conversion. */
  function ConvertedItems<T>(items: seq<Object>, elem: Object -> Result<T, ConvertError>): (r: Result<seq<T>, ConvertError>)
    ensures r.Success? ==> |r.value| == |items|
  {
    if |items| == 0 then Success([])
    else
      var head := elem(items[0]);
      if head.Failure? then Failure(head.error)
      else
        var tail := ConvertedItems(items[1..], elem);
        if tail.Failure? then Failure(tail.error) else Success([head.value] + tail.value)
  }

  /**
   * The conversion succeeds exactly when every element converts, and then
   * element i of the result is element i converted; a failure reports the
   * error of the first element that does not convert.
   */
  lemma {:induction false} ConvertedItemsMeaning<T>(items: seq<Object>, elem: Object -> Result<T, ConvertError>)
    ensures var r := ConvertedItems(items, elem);
      (r.Success? <==> forall i | 0 <= i < |items| :: elem(items[i]).Success?) &&
      (r.Success? ==> forall i | 0 <= i < |items| :: r.value[i] == elem(items[i]).value) &&
      (r.Failure? ==> exists i | 0 <= i < |items| :: elem(items[i]) == Failure(r.error) &&
                        forall j | 0 <= j < i :: elem(items[j]).Success?)
  {
    if |items| > 0 {
      ConvertedItemsMeaning(items[1..], elem);
      var r := ConvertedItems(items, elem);
      var tail := ConvertedItems(items[1..], elem);
      if elem(items[0]).Success? && tail.Failure? {
        var i :| 0 <= i < |items[1..]| && elem(items[1..][i]) == Failure(tail.error) &&
          forall j | 0 <= j < i :: elem(items[1..][j]).Success?;
        assert elem(items[i + 1]) == Failure(r.error);
        assert forall j | 0 <= j < i + 1 :: elem(items[j]).Success? by {
          forall j | 0 <= j < i + 1 ensures elem(items[j]).Success? {
            if j > 0 { assert items[j] == items[1..][j - 1]; }
          }
        }
      }
      if r.Success? {
        forall i | 0 <= i < |items| ensures r.value[i] == elem(items[i]).value {
          if i > 0 { assert items[i] == items[1..][i - 1]; }
        }
      }
      if forall i | 0 <= i < |items| :: elem(items[i]).Success? {
        assert forall i | 0 <= i < |items[1..]| :: elem(items[1..][i]).Success? by {
          forall i | 0 <= i < |items[1..]| ensures elem(items[1..][i]).Success? {
            assert items[1..][i] == items[i + 1];
          }
        }
      }
    }
  }

  /** `as<std::vector<T>>` as a function, for use as an element conversion in turn. */
  function AsVector<T>(o: Object, elem: Object -> Result<T, ConvertError>): (r: Result<seq<T>, ConvertError>)
    ensures o.tag != Array ==> r == Failure(NotArray)
    ensures o.tag == Array ==> r == ConvertedItems(o.elements, elem)
  {
    if o.tag != Array then Failure(NotArray) else ConvertedItems(o.elements, elem)
  }

  /**
   * `convert(object, std::vector<T> *result)`: each converted element is
   * appended to what `result` already holds (`as<T>` starts it empty).
   */
  method ConvertVector<T>(o: Object, prior: seq<T>, elem: Object -> Result<T, ConvertError>)
    returns (r: Result<seq<T>, ConvertError>)
    ensures AsVector(o, elem).Failure? ==> r == Failure(AsVector(o, elem).error)
    ensures AsVector(o, elem).Success? ==> r == Success(prior + AsVector(o, elem).value)
  {
    if o.tag != Array {
      return Failure(NotArray);
    }
    var result := prior;
    var i := 0;
    assert o.elements[0..] == o.elements && result[|prior|..] == [];
    match ConvertedItems(o.elements, elem) {
      case Success(t) => assert [] + t == t;
      case Failure(_) =>
    }
    while i < |o.elements|
      invariant 0 <= i <= |o.elements|
      invariant |result| >= |prior| && result[..|prior|] == prior
      invariant ConvertedItems(o.elements, elem) == ConvertedAfter(result[|prior|..], o.elements[i..], elem)
      decreases |o.elements| - i
    {
      var e := elem(o.elements[i]);
      if e.Failure? {
        return Failure(e.error);
      }
      ConvertedAfterStep(result[|prior|..], o.elements[i..], elem);
      assert o.elements[i..][1..] == o.elements[i + 1..];
      assert (result + [e.value])[|prior|..] == result[|prior|..] + [e.value];
      result := result + [e.value];
      i := i + 1;
    }
    assert o.elements[i..] == [];
    assert result[|prior|..] + [] == result[|prior|..];
    assert result == prior + result[|prior|..];
    return Success(result);
  }

  /** The conversion of `rest` after the elements already converted to `done`. */
  function ConvertedAfter<T>(done: seq<T>, rest: seq<Object>, elem: Object -> Result<T, ConvertError>): Result<seq<T>, ConvertError>
  {
    match ConvertedItems(rest, elem)
    case Success(tail) => Success(done + tail)
    case Failure(e) => Failure(e)
  }

  /** Converting the next element moves it from the rest to the converted part. */
  lemma ConvertedAfterStep<T>(done: seq<T>, rest: seq<Object>, elem: Object -> Result<T, ConvertError>)
    requires |rest| > 0 && elem(rest[0]).Success?
    ensures ConvertedAfter(done, rest, elem) == ConvertedAfter(done + [elem(rest[0]).value], rest[1..], elem)
  {
    var tail := ConvertedItems(rest[1..], elem);
    if tail.Success? {
      assert done + ([elem(rest[0]).value] + tail.value) == done + [elem(rest[0]).value] + tail.value;
    }
  }

  /**
   * `as<std::unordered_map<std::string, T>>` as a function: every value
   * converted under its key, or the error of a value that does not convert.
   */
  ghost function AsMap<T>(o: Object, elem: Object -> Result<T, ConvertError>): (r: Result<map<seq<Byte>, T>, ConvertError>)
    ensures o.tag != Dictionary ==> r == Failure(NotDictionary)
    ensures o.tag == Dictionary && (forall k | k in o.entries :: elem(o.entries[k]).Success?) ==>
      r == Success(map k | k in o.entries :: elem(o.entries[k]).value)
  {
    if o.tag != Dictionary then Failure(NotDictionary)
    else if forall k | k in o.entries :: elem(o.entries[k]).Success? then
      Success(map k | k in o.entries :: elem(o.entries[k]).value)
    else
      var k :| k in o.entries && elem(o.entries[k]).Failure?;
      Failure(elem(o.entries[k]).error)
  }

  /**
   * `convert(object, std::unordered_map<std::string, T> *result)`: the
   * entries are visited in the map's own order, and each converted value is
   * stored under its key over whatever `result` held there. The outcome
   * does not depend on the order, except for which failing value is
   * reported.
   */
  method ConvertMap<T>(o: Object, prior: map<seq<Byte>, T>, elem: Object -> Result<T, ConvertError>)
    returns (r: Result<map<seq<Byte>, T>, ConvertError>)
    ensures o.tag != Dictionary ==> r == Failure(NotDictionary)
    ensures AsMap(o, elem).Success? ==> r == Success(prior + AsMap(o, elem).value)
    ensures o.tag == Dictionary && AsMap(o, elem).Failure? ==>
      r.Failure? && exists k | k in o.entries :: elem(o.entries[k]) == Failure(r.error)
  {
    if o.tag != Dictionary {
      return Failure(NotDictionary);
    }
    var converted: map<seq<Byte>, T> := map[];
    var remaining := o.entries.Keys;
    while remaining != {}
      invariant remaining <= o.entries.Keys
      invariant converted.Keys == o.entries.Keys - remaining
      invariant forall k | k in converted :: elem(o.entries[k]) == Success(converted[k])
      decreases |remaining|
    {
      var k :| k in remaining;
      var e := elem(o.entries[k]);
      if e.Failure? {
        return Failure(e.error);
      }
      converted := converted[k := e.value];
      remaining := remaining - {k};
    }
    assert converted == map k | k in o.entries :: elem(o.entries[k]).value;
    var result := prior + converted;
    return Success(result);
  }
}
