/**
 * The list helpers of the FBX mesh importer: vertex chunks, the polygons
 * of a PolygonVertexIndex list (the last index of each polygon stored as
 * its bitwise complement), triangulation, and flattening of nested lists.
 */
module FbxMesh {
  import opened Wrappers
  import FbxParser

  /** `vertex_index`: an index as stored, with the complement of a polygon's last index undone. */
  function VertexIndex(idx: int): (r: nat)
    ensures idx >= 0 ==> r == idx
    ensures idx < 0 ==> r == -idx - 1
  {
    if idx >= 0 then idx else -idx - 1
  }

  /** An index stored as the last of its polygon and one stored elsewhere decode to the same vertex. */
  lemma VertexIndexOfComplement(n: nat)
    ensures VertexIndex(n) == n && VertexIndex(-(n as int) - 1) == n
  {
  }

  // ---------------------------------------------------------------------
  // make_vertices

  /** Consecutive chunks of exactly `size` items; a trailing partial chunk is dropped. */
  function Chunks<T>(items: seq<T>, size: nat): (r: seq<seq<T>>)
    decreases |items|
  {
    if size == 0 || |items| < size then [] else [items[..size]] + Chunks(items[size..], size)
  }

  /** The trailing partial chunk that `make_vertices` drops. */
  function Rest<T>(items: seq<T>, size: nat): (r: seq<T>)
    decreases |items|
  {
    if size == 0 || |items| < size then items else Rest(items[size..], size)
  }

  /** The chunks and the dropped rest make up the input; every chunk has `size` items and the rest fewer. */
  lemma {:induction false} ChunksShape<T>(items: seq<T>, size: nat)
    requires size > 0
    ensures Concat(Chunks(items, size)) + Rest(items, size) == items
    ensures forall c | c in Chunks(items, size) :: |c| == size
    ensures |Rest(items, size)| < size
    decreases |items|
  {
    if |items| >= size {
      ChunksShape(items[size..], size);
      assert items == items[..size] + items[size..];
    }
  }

  /** Appending one item either closes a chunk or extends the pending part. */
  lemma {:induction false} ChunksSnoc<T>(items: seq<T>, x: T, size: nat)
    requires size > 0 && |Rest(items, size)| < size
    ensures |Rest(items, size)| == size - 1 ==>
      Chunks(items + [x], size) == Chunks(items, size) + [Rest(items, size) + [x]] && Rest(items + [x], size) == []
    ensures |Rest(items, size)| < size - 1 ==>
      Chunks(items + [x], size) == Chunks(items, size) && Rest(items + [x], size) == Rest(items, size) + [x]
    decreases |items|
  {
    if |items| >= size {
      assert (items + [x])[size..] == items[size..] + [x];
      assert (items + [x])[..size] == items[..size];
      ChunksSnoc(items[size..], x, size);
    } else if |items| == size - 1 {
      assert (items + [x])[..size] == items + [x];
      assert (items + [x])[size..] == [];
    }
  }

  /** `make_vertices`. */
  method MakeVertices<T>(verts: seq<T>, size: nat) returns (vs: seq<seq<T>>)
    ensures vs == Chunks(verts, size)
  {
    vs := [];
    var v: seq<T> := [];
    for i := 0 to |verts|
      invariant size > 0 ==> vs == Chunks(verts[..i], size) && v == Rest(verts[..i], size) && |v| < size
      invariant size == 0 ==> vs == [] && v == verts[..i]
    {
      if size > 0 {
        ChunksShape(verts[..i], size);
        ChunksSnoc(verts[..i], verts[i], size);
        assert verts[..i + 1] == verts[..i] + [verts[i]];
      }
      v := v + [verts[i]];
      if |v| == size {
        vs := vs + [v];
        v := [];
      }
    }
    assert verts[..|verts|] == verts;
  }

  // ---------------------------------------------------------------------
  // tesselate_poly and tesselate_poly_list

  /** `tesselate_poly`: a triangle stays itself, a quad (a,b,c,d) becomes (a,b,c) and (a,c,d); anything else has no triangulation. */
  function TesselatePoly<T>(poly: seq<T>): (r: Option<seq<seq<T>>>)
    ensures r.Some? <==> |poly| == 3 || |poly| == 4
    ensures r.Some? ==> |r.value| == |poly| - 2
  {
    if |poly| == 3 then Some([poly])
    else if |poly| == 4 then Some([[poly[0], poly[1], poly[2]], [poly[0], poly[2], poly[3]]])
    else None
  }

  /** Every triangle of a triangulation is a fan triangle (poly[0], poly[k], poly[k+1]). */
  lemma TesselatedFan<T>(poly: seq<T>)
    requires TesselatePoly(poly).Some?
    ensures forall k | 0 <= k < |TesselatePoly(poly).value| ::
      TesselatePoly(poly).value[k] == [poly[0], poly[k + 1], poly[k + 2]]
  {
    if |poly| == 3 {
      assert poly == [poly[0], poly[1], poly[2]];
    }
  }

  /**
   * `tesselate_poly_list`: the triangles of every polygon in order. A
   * polygon without a triangulation makes `chain` iterate None, a TypeError.
   */
  function TesselatePolyList<T>(polys: seq<seq<T>>): (r: Option<seq<seq<T>>>)
    ensures r.Some? ==> forall t | t in r.value :: |t| == 3
  {
    if |polys| == 0 then Some([])
    else
      match (TesselatePoly(polys[0]), TesselatePolyList(polys[1..]))
      case (Some(ts), Some(rest)) =>
        TesselatedFan(polys[0]);
        Some(ts + rest)
      case _ => None
  }

  /** The list triangulates exactly when every polygon is a triangle or a quad. */
  lemma {:induction false} TesselateListDefined<T>(polys: seq<seq<T>>)
    ensures TesselatePolyList(polys).Some? <==> forall i | 0 <= i < |polys| :: |polys[i]| == 3 || |polys[i]| == 4
  {
    if |polys| > 0 {
      TesselateListDefined(polys[1..]);
      if TesselatePolyList(polys).Some? {
        forall i | 0 <= i < |polys|
          ensures |polys[i]| == 3 || |polys[i]| == 4
        {
          if i > 0 {
            assert polys[i] == polys[1..][i - 1];
          }
        }
      } else if |polys[0]| == 3 || |polys[0]| == 4 {
        var i :| 0 <= i < |polys[1..]| && !(|polys[1..][i]| == 3 || |polys[1..][i]| == 4);
        assert polys[i + 1] == polys[1..][i];
      }
    }
  }

  /** Number of triangles a list of triangles and quads gives. */
  function TriangleCount<T>(polys: seq<seq<T>>): nat
  {
    if |polys| == 0 then 0 else (if |polys[0]| >= 2 then |polys[0]| - 2 else 0) + TriangleCount(polys[1..])
  }

  /** A list of triangles and quads yields one triangle per triangle and two per quad. */
  lemma {:induction false} TesselatedCount<T>(polys: seq<seq<T>>)
    requires TesselatePolyList(polys).Some?
    ensures |TesselatePolyList(polys).value| == TriangleCount(polys)
  {
    if |polys| > 0 {
      TesselatedCount(polys[1..]);
    }
  }

  // ---------------------------------------------------------------------
  // flatten

  /** A nested list: an item, or a list (anything with `__iter__`). */
  datatype Nested<T> = Item(value: T) | Group(items: seq<Nested<T>>)

  /** The items of a nested list, in order, at any depth. */
  function Leaves<T>(l: seq<Nested<T>>): (r: seq<T>)
    decreases l
  {
    if |l| == 0 then []
    else
      (match l[0] case Item(x) => [x] case Group(items) => Leaves(items)) + Leaves(l[1..])
  }

  lemma {:induction false} LeavesAppend<T>(a: seq<Nested<T>>, b: seq<Nested<T>>)
    ensures Leaves(a + b) == Leaves(a) + Leaves(b)
    decreases |a|
  {
    if |a| == 0 {
      assert a + b == b;
    } else {
      assert (a + b)[0] == a[0];
      assert (a + b)[1..] == a[1..] + b;
      LeavesAppend(a[1..], b);
    }
  }

  /** A list of flat lists flattens to their concatenation. */
  lemma {:induction false} LeavesOfGroups<T>(ls: seq<seq<T>>)
    ensures Leaves(seq(|ls|, i requires 0 <= i < |ls| => Group(seq(|ls[i]|, j requires 0 <= j < |ls[i]| => Item(ls[i][j]))))) == Concat(ls)
    decreases |ls|
  {
    var l := seq(|ls|, i requires 0 <= i < |ls| => Group(seq(|ls[i]|, j requires 0 <= j < |ls[i]| => Item(ls[i][j]))));
    if |ls| > 0 {
      ItemsLeaves(ls[0]);
      var rest := seq(|ls[1..]|, i requires 0 <= i < |ls[1..]| => Group(seq(|ls[1..][i]|, j requires 0 <= j < |ls[1..][i]| => Item(ls[1..][i][j]))));
      assert l[1..] == rest;
      LeavesOfGroups(ls[1..]);
    }
  }

  lemma {:induction false} ItemsLeaves<T>(xs: seq<T>)
    ensures Leaves(seq(|xs|, j requires 0 <= j < |xs| => Item(xs[j]))) == xs
    decreases |xs|
  {
    if |xs| > 0 {
      var l := seq(|xs|, j requires 0 <= j < |xs| => Item(xs[j]));
      assert l[1..] == seq(|xs[1..]|, j requires 0 <= j < |xs[1..]| => Item(xs[1..][j]));
      ItemsLeaves(xs[1..]);
    }
  }

  function Concat<T>(ls: seq<seq<T>>): seq<T>
  {
    if |ls| == 0 then [] else ls[0] + Concat(ls[1..])
  }

  /** `flatten`. */
  method Flatten<T>(l: seq<Nested<T>>) returns (r: seq<T>)
    ensures r == Leaves(l)
    decreases l
  {
    r := [];
    for k := 0 to |l|
      invariant r == Leaves(l[..k])
    {
      LeavesAppend(l[..k], [l[k]]);
      assert l[..k + 1] == l[..k] + [l[k]];
      match l[k]
      case Group(items) =>
        var inner := Flatten(items);
        r := r + inner;
      case Item(x) =>
        r := r + [x];
    }
    assert l[..|l|] == l;
  }

  // ---------------------------------------------------------------------
  // FBXMesh._construct_polygon_indices

  /**
   * The indices read so far, split into the closed polygons and the
   * polygon still open: a negative index closes the polygon it ends.
   */
  function Scan(indices: seq<int>): (r: (seq<seq<nat>>, seq<nat>))
  {
    if |indices| == 0 then ([], [])
    else
      var (polys, open) := Scan(indices[..|indices| - 1]);
      var idx := indices[|indices| - 1];
      var poly := open + [VertexIndex(idx)];
      if idx < 0 then (polys + [poly], []) else (polys, poly)
  }

  function Polygons(indices: seq<int>): seq<seq<nat>>
  {
    Scan(indices).0
  }

  function DecodedIndices(indices: seq<int>): (r: seq<nat>)
    ensures |r| == |indices|
    ensures forall i | 0 <= i < |indices| :: r[i] == VertexIndex(indices[i])
  {
    seq(|indices|, i requires 0 <= i < |indices| => VertexIndex(indices[i]))
  }

  function NegativeCount(indices: seq<int>): nat
  {
    if |indices| == 0 then 0 else NegativeCount(indices[..|indices| - 1]) + (if indices[|indices| - 1] < 0 then 1 else 0)
  }

  /** The polygons and the open tail together hold every decoded index in order; nothing is reordered or lost. */
  lemma {:induction false} ScanKeepsEveryIndex(indices: seq<int>)
    ensures Concat(Scan(indices).0) + Scan(indices).1 == DecodedIndices(indices)
  {
    if |indices| > 0 {
      var init := indices[..|indices| - 1];
      ScanKeepsEveryIndex(init);
      var (polys, open) := Scan(init);
      ConcatSnoc(polys, open + [VertexIndex(indices[|indices| - 1])]);
      assert DecodedIndices(indices) == DecodedIndices(init) + [VertexIndex(indices[|indices| - 1])];
    }
  }

  /** One polygon per negative index; the open tail holds no negative index and is empty after a negative one. */
  lemma {:induction false} ScanCloses(indices: seq<int>)
    ensures |Scan(indices).0| == NegativeCount(indices)
    ensures forall p | p in Scan(indices).0 :: |p| > 0
    ensures |indices| > 0 && indices[|indices| - 1] < 0 ==> Scan(indices).1 == []
    ensures |Scan(indices).1| <= |indices|
    ensures forall i | |indices| - |Scan(indices).1| <= i < |indices| :: indices[i] >= 0
  {
    if |indices| > 0 {
      ScanCloses(indices[..|indices| - 1]);
    }
  }

  lemma {:induction false} ConcatSnoc<T>(ls: seq<seq<T>>, x: seq<T>)
    ensures Concat(ls + [x]) == Concat(ls) + x
    decreases |ls|
  {
    if |ls| > 0 {
      assert (ls + [x])[1..] == ls[1..] + [x];
      ConcatSnoc(ls[1..], x);
    }
  }

  /** The part of FBXMesh this model covers: the vertices and the polygon index lists. */
  class Mesh {
    var name: FbxParser.Property
    var vertices: seq<seq<FbxParser.Property>>
    var vertexIndices: seq<int>
    var polygonIndices: seq<seq<nat>>

    /** `FBXMesh.__init__`: the vertices in triples, and the polygons of the index list. */
    constructor(name: FbxParser.Property, vertices: seq<FbxParser.Property>, vertexIndices: seq<int>)
      ensures this.name == name && this.vertices == Chunks(vertices, 3)
      ensures this.vertexIndices == vertexIndices && polygonIndices == Polygons(vertexIndices)
    {
      this.name := name;
      this.vertices := Chunks(vertices, 3);
      this.vertexIndices := vertexIndices;
      new;
      ConstructPolygonIndices();
    }

    /** `_construct_polygon_indices`. */
    method ConstructPolygonIndices()
      modifies this
      ensures polygonIndices == Polygons(vertexIndices)
      ensures name == old(name) && vertices == old(vertices) && vertexIndices == old(vertexIndices)
    {
      var polys: seq<seq<nat>> := [];
      var poly: seq<nat> := [];
      for i := 0 to |vertexIndices|
        invariant (polys, poly) == Scan(vertexIndices[..i])
      {
        var idx := vertexIndices[i];
        assert vertexIndices[..i + 1][..i] == vertexIndices[..i];
        poly := poly + [VertexIndex(idx)];
        if idx < 0 {
          polys := polys + [poly];
          poly := [];
        }
      }
      assert vertexIndices[..|vertexIndices|] == vertexIndices;
      polygonIndices := polys;
    }
  }
}
