/** Sequence helpers shared by the models of lists the sources edit in place. */
module Sequences {
  /** No element occurs twice. */
  ghost predicate NoDup<T>(xs: seq<T>)
  {
    forall i, j | 0 <= i < j < |xs| :: xs[i] != xs[j]
  }

  /** The position of the first occurrence of x. */
  function FirstIndex<T(==)>(xs: seq<T>, x: T): (i: nat)
    requires x in xs
    ensures i < |xs| && xs[i] == x && forall j | 0 <= j < i :: xs[j] != x
  {
    if xs[0] == x then 0 else 1 + FirstIndex(xs[1..], x)
  }

  /**
   * The first occurrence of x removed: C++'s `erase(find(begin, end, x))`
   * and Python's `list.remove(x)`.
   */
  function EraseFirst<T(==)>(xs: seq<T>, x: T): (r: seq<T>)
    requires x in xs
    ensures |r| == |xs| - 1
  {
    var i := FirstIndex(xs, x);
    xs[..i] + xs[i + 1..]
  }

  /**
   * In a list without duplicates, erasing the first occurrence of x
   * removes x and keeps every other element, in order.
   */
  lemma EraseFirstMeaning<T>(xs: seq<T>, x: T)
    requires x in xs && NoDup(xs)
    ensures x !in EraseFirst(xs, x) && NoDup(EraseFirst(xs, x))
    ensures forall y | y != x :: (y in EraseFirst(xs, x) <==> y in xs)
  {
    var i := FirstIndex(xs, x);
    var r := EraseFirst(xs, x);
    assert forall k | 0 <= k < |r| :: r[k] == if k < i then xs[k] else xs[k + 1];
    forall y | y in xs && y != x
      ensures y in r
    {
      var k :| 0 <= k < |xs| && xs[k] == y;
      assert r[if k < i then k else k - 1] == y;
    }
  }

  /** Erasing keeps only elements that were there. */
  lemma EraseFirstKeeps<T>(xs: seq<T>, x: T)
    requires x in xs
    ensures forall y | y in EraseFirst(xs, x) :: y in xs
  {
    var i := FirstIndex(xs, x);
    assert forall y | y in xs[..i] + xs[i + 1..] :: y in xs[..i] || y in xs[i + 1..];
  }

  /** Erasing the first occurrence of x takes one x out of the multiset of elements. */
  lemma EraseFirstCount<T>(xs: seq<T>, x: T)
    requires x in xs
    ensures multiset(EraseFirst(xs, x)) == multiset(xs) - multiset{x}
  {
    var i := FirstIndex(xs, x);
    assert xs == xs[..i] + [x] + xs[i + 1..];
  }
}
