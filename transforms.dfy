/**
 * Transform: a parent/child tree of transforms, each with local position,
 * rotation and scale and a "matrices invalid" flag. The tree is kept as
 * one object holding every transform's links by id; positions, rotations
 * and scales are opaque values that are only stored. Only the tree, the
 * flag and the order in which matrices are rebuilt are modelled.
 */
module Transforms {
  import opened Sequences

  /**
   * The links are reciprocal: c is among p's children exactly when c's
   * parent is p, and no child is listed twice.
   */
  ghost predicate WellLinked(parent: map<nat, nat>, children: map<nat, seq<nat>>)
  {
    (forall p | p in children :: NoDup(children[p])) &&
    (forall p, i | p in children && 0 <= i < |children[p]| ::
       children[p][i] in parent && parent[children[p][i]] == p) &&
    (forall c | c in parent :: c in children && parent[c] in children && c in children[parent[c]])
  }

  /** A new transform with no parent and no children keeps the links reciprocal. */
  lemma AddNodeKeepsLinks(parent: map<nat, nat>, children: map<nat, seq<nat>>, t: nat)
    requires WellLinked(parent, children) && t !in children
    ensures WellLinked(parent, children[t := []])
  {
    var ch := children[t := []];
    forall p, i | p in ch && 0 <= i < |ch[p]|
      ensures ch[p][i] in parent && parent[ch[p][i]] == p
    {
      assert ch[p][i] == children[p][i];
    }
  }

  /** Dropping t's parent link and erasing t from the parent's list keeps the links reciprocal. */
  lemma UnlinkKeepsLinks(parent: map<nat, nat>, children: map<nat, seq<nat>>, t: nat)
    requires WellLinked(parent, children) && t in parent
    ensures parent[t] in children && t in children[parent[t]]
    ensures WellLinked(parent - {t}, children[parent[t] := EraseFirst(children[parent[t]], t)])
  {
    var p := parent[t];
    EraseFirstMeaning(children[p], t);
    var ch := children[p := EraseFirst(children[p], t)];
    var pa := parent - {t};
    forall q, i | q in ch && 0 <= i < |ch[q]|
      ensures ch[q][i] in pa && pa[ch[q][i]] == q
    {
      if q == p {
        assert ch[q][i] in children[p];
        var j :| 0 <= j < |children[p]| && children[p][j] == ch[q][i];
      } else {
        assert ch[q][i] == children[q][i];
        assert children[p][FirstIndex(children[p], t)] == t;
      }
    }
    forall c | c in pa
      ensures pa[c] in ch && c in ch[pa[c]]
    {
      assert c in children[parent[c]];
    }
  }

  /** Appending a parentless c to t's children and setting its parent keeps the links reciprocal. */
  lemma AttachKeepsLinks(parent: map<nat, nat>, children: map<nat, seq<nat>>, t: nat, c: nat)
    requires WellLinked(parent, children) && t in children && c in children && c !in parent
    ensures WellLinked(parent[c := t], children[t := children[t] + [c]])
  {
    var ch := children[t := children[t] + [c]];
    assert forall j | 0 <= j < |children[t]| :: children[t][j] != c;
    forall q, i | q in ch && 0 <= i < |ch[q]|
      ensures ch[q][i] in parent[c := t] && parent[c := t][ch[q][i]] == q
    {
      if q == t && i == |children[t]| {
      } else {
        assert ch[q][i] == children[q][i];
      }
    }
  }

  /**
   * The children lists once c has been detached from its parent, if it
   * has one (the first step of `add_child`).
   */
  function Detached(parent: map<nat, nat>, children: map<nat, seq<nat>>, c: nat): map<nat, seq<nat>>
  {
    if c in parent && parent[c] in children && c in children[parent[c]]
    then children[parent[c] := EraseFirst(children[parent[c]], c)]
    else children
  }

  /**
   * What `invalidate_transform_matrices()` on t marks, following child
   * links at most fuel levels deep.
   */
  function Subtree(children: map<nat, seq<nat>>, t: nat, fuel: nat): (r: set<nat>)
    decreases fuel, 0
  {
    if fuel == 0 then {} else {t} + SubtreesOf(children, if t in children then children[t] else [], fuel - 1)
  }

  /** The union of Subtree over a list of children. */
  function SubtreesOf(children: map<nat, seq<nat>>, cs: seq<nat>, fuel: nat): (r: set<nat>)
    decreases fuel, 1, |cs|
  {
    if |cs| == 0 then {}
    else SubtreesOf(children, cs[..|cs| - 1], fuel) + Subtree(children, cs[|cs| - 1], fuel)
  }

  /** A transform's subtree holds it and the subtree of each of its children. */
  lemma SubtreeHoldsChildren(children: map<nat, seq<nat>>, t: nat, fuel: nat)
    requires fuel > 0 && t in children
    ensures t in Subtree(children, t, fuel)
    ensures forall i | 0 <= i < |children[t]| ::
      Subtree(children, children[t][i], fuel - 1) <= Subtree(children, t, fuel)
  {
    forall i | 0 <= i < |children[t]|
      ensures Subtree(children, children[t][i], fuel - 1) <= Subtree(children, t, fuel)
    {
      SubtreesOfHolds(children, children[t], i, fuel - 1);
    }
  }

  /** The union over a list holds the subtree of each entry. */
  lemma {:induction false} SubtreesOfHolds(children: map<nat, seq<nat>>, cs: seq<nat>, i: nat, fuel: nat)
    requires i < |cs|
    ensures Subtree(children, cs[i], fuel) <= SubtreesOf(children, cs, fuel)
    decreases |cs|
  {
    if i < |cs| - 1 {
      SubtreesOfHolds(children, cs[..|cs| - 1], i, fuel);
    }
  }

  /**
   * The `construct_transform_matrices()` calls that
   * `construct_transform_matrices_if_invalid()` on t makes: none if t
   * is valid, otherwise those for its parent (whose world matrices are
   * read first), then t's own. At most fuel levels up.
   */
  function Rebuilds(parent: map<nat, nat>, dirty: set<nat>, t: nat, fuel: nat): (r: seq<nat>)
    decreases fuel
  {
    if t !in dirty then []
    else if t in parent && fuel > 0 then Rebuilds(parent, dirty, parent[t], fuel - 1) + [t]
    else [t]
  }

  /**
   * Only invalid transforms are rebuilt, t last and each after its
   * parent; when t is valid nothing is rebuilt.
   */
  lemma {:induction false} RebuildsParentFirst(parent: map<nat, nat>, dirty: set<nat>, t: nat, fuel: nat)
    ensures var r := Rebuilds(parent, dirty, t, fuel);
      (forall x | x in r :: x in dirty) &&
      (t !in dirty <==> r == []) &&
      (t in dirty ==> r[|r| - 1] == t) &&
      (forall k | 0 < k < |r| :: r[k] in parent && parent[r[k]] == r[k - 1])
    decreases fuel
  {
    if t in dirty && t in parent && fuel > 0 {
      RebuildsParentFirst(parent, dirty, parent[t], fuel - 1);
    }
  }

  class TransformTree<V, Q> {
    /** `_parent`, for the transforms that have one. */
    var parent: map<nat, nat>
    /** `_children`, in order. */
    var children: map<nat, seq<nat>>
    /** The transforms whose `_transform_matrices_invalid` is set. */
    var dirty: set<nat>
    /** `construct_transform_matrices()` calls, in order. */
    var rebuilt: seq<nat>
    /** `_local_position`, `_local_rotation` and `_local_scale`. */
    var positions: map<nat, V>
    var rotations: map<nat, Q>
    var scales: map<nat, V>
    /** The starting values: position (0, 0, 0), scale (1, 1, 1), the identity rotation. */
    const origin: V
    const unit: V
    const identity: Q

    /** The links are reciprocal. */
    ghost predicate Linked()
      reads this
    {
      WellLinked(parent, children)
    }

    constructor (origin: V, unit: V, identity: Q)
      ensures Linked() && children == map[] && dirty == {} && rebuilt == []
      ensures this.origin == origin && this.unit == unit && this.identity == identity
    {
      parent, children, dirty, rebuilt := map[], map[], {}, [];
      positions, rotations, scales := map[], map[], map[];
      this.origin, this.unit, this.identity := origin, unit, identity;
    }

    /** `Transform(owner)`: no parent, no children, the starting values, and invalid matrices. */
    method AddTransform(t: nat)
      requires Linked() && t !in children
      modifies this
      ensures Linked() && t !in parent
      ensures children == old(children)[t := []] && parent == old(parent)
      ensures positions == old(positions)[t := origin] && rotations == old(rotations)[t := identity]
      ensures scales == old(scales)[t := unit]
      ensures dirty == old(dirty) + {t} && rebuilt == old(rebuilt)
    {
      AddNodeKeepsLinks(parent, children, t);
      children := children[t := []];
      positions, rotations, scales := positions[t := origin], rotations[t := identity], scales[t := unit];
      dirty := dirty + {t};
    }

    /**
     * `invalidate_transform_matrices()`: the flag is set on t, then the
     * same is done for each child in order. The recursion is bounded by
     * fuel, which a caller sets to the number of transforms.
     */
    method Invalidate(t: nat, fuel: nat)
      requires Linked()
      modifies this
      ensures Linked() && dirty == old(dirty) + Subtree(children, t, fuel)
      ensures parent == old(parent) && children == old(children)
      ensures rebuilt == old(rebuilt) && positions == old(positions)
      ensures rotations == old(rotations) && scales == old(scales)
      decreases fuel, 0
    {
      if fuel == 0 {
        return;
      }
      dirty := dirty + {t};
      var cs := if t in children then children[t] else [];
      InvalidateAll(cs, fuel - 1);
    }

    /** The loop over the children in `invalidate_transform_matrices()`. */
    method InvalidateAll(cs: seq<nat>, fuel: nat)
      requires Linked()
      modifies this
      ensures Linked() && dirty == old(dirty) + SubtreesOf(children, cs, fuel)
      ensures parent == old(parent) && children == old(children)
      ensures rebuilt == old(rebuilt) && positions == old(positions)
      ensures rotations == old(rotations) && scales == old(scales)
      decreases fuel, 1
    {
      var i := 0;
      while i < |cs|
        invariant i <= |cs| && Linked() && dirty == old(dirty) + SubtreesOf(children, cs[..i], fuel)
        invariant parent == old(parent) && children == old(children)
        invariant rebuilt == old(rebuilt) && positions == old(positions)
        invariant rotations == old(rotations) && scales == old(scales)
      {
        Invalidate(cs[i], fuel);
        assert cs[..i + 1][..i] == cs[..i];
        i := i + 1;
      }
      assert cs[..i] == cs;
    }

    /** `set_local_position(v)` (keeping child local positions): store, then invalidate. */
    method SetLocalPosition(t: nat, v: V)
      requires Linked() && t in children
      modifies this
      ensures Linked() && positions == old(positions)[t := v] && dirty == old(dirty) + Subtree(children, t, |children|)
      ensures parent == old(parent) && children == old(children)
      ensures rebuilt == old(rebuilt) && rotations == old(rotations) && scales == old(scales)
    {
      positions := positions[t := v];
      Invalidate(t, |children|);
    }

    /** `set_local_rotation(q)`: store, then invalidate. */
    method SetLocalRotation(t: nat, q: Q)
      requires Linked() && t in children
      modifies this
      ensures Linked() && rotations == old(rotations)[t := q] && dirty == old(dirty) + Subtree(children, t, |children|)
      ensures parent == old(parent) && children == old(children)
      ensures rebuilt == old(rebuilt) && positions == old(positions) && scales == old(scales)
    {
      rotations := rotations[t := q];
      Invalidate(t, |children|);
    }

    /** `set_local_scale(v)`: store, then invalidate. */
    method SetLocalScale(t: nat, v: V)
      requires Linked() && t in children
      modifies this
      ensures Linked() && scales == old(scales)[t := v] && dirty == old(dirty) + Subtree(children, t, |children|)
      ensures parent == old(parent) && children == old(children)
      ensures rebuilt == old(rebuilt) && positions == old(positions) && rotations == old(rotations)
    {
      scales := scales[t := v];
      Invalidate(t, |children|);
    }

    /**
     * `remove_from_parent()`: the first occurrence of t is erased from its
     * parent's children, t loses its parent, and its subtree is
     * invalidated. Having a parent is the caller's obligation.
     */
    method RemoveFromParent(t: nat)
      requires Linked() && t in parent
      modifies this
      ensures Linked() && parent == old(parent) - {t}
      ensures children == old(children)[old(parent)[t] := EraseFirst(old(children)[old(parent)[t]], t)]
      ensures dirty == old(dirty) + Subtree(children, t, |children|)
      ensures rebuilt == old(rebuilt)
      ensures positions == old(positions) && rotations == old(rotations) && scales == old(scales)
    {
      var p := parent[t];
      Unlink(p, t);
      Invalidate(t, |children|);
    }

    /** The link half of `remove_from_parent`. */
    method Unlink(p: nat, t: nat)
      requires Linked() && t in parent && parent[t] == p
      modifies this
      ensures Linked() && parent == old(parent) - {t}
      ensures p in old(children) && children == old(children)[p := EraseFirst(old(children)[p], t)]
      ensures dirty == old(dirty) && rebuilt == old(rebuilt)
      ensures positions == old(positions) && rotations == old(rotations) && scales == old(scales)
    {
      UnlinkKeepsLinks(parent, children, t);
      children := children[p := EraseFirst(children[p], t)];
      parent := parent - {t};
    }

    /**
     * `add_child(c)`: c is first detached from its parent if it has one
     * (which invalidates its subtree), then appended to t's children with
     * t as its parent, and its subtree is invalidated. t must not lie in
     * c's subtree: the tree has no cycles.
     */
    method AddChild(t: nat, c: nat)
      requires Linked() && t in children && c in children && t !in Subtree(children, c, |children|)
      modifies this
      ensures Linked() && parent == old(parent)[c := t]
      ensures var d := Detached(old(parent), old(children), c); t in d && children == d[t := d[t] + [c]]
      ensures dirty == old(dirty) + (if c in old(parent) then Subtree(Detached(old(parent), old(children), c), c, |children|) else {})
                       + Subtree(children, c, |children|)
      ensures rebuilt == old(rebuilt)
      ensures positions == old(positions) && rotations == old(rotations) && scales == old(scales)
    {
      if c in parent {
        ghost var p0 := parent;
        RemoveFromParent(c);
        assert parent[c := t] == p0[c := t];
      }
      Attach(t, c);
      Invalidate(c, |children|);
    }

    /** The link half of `add_child` once c has no parent. */
    method Attach(t: nat, c: nat)
      requires Linked() && t in children && c in children && c !in parent
      modifies this
      ensures Linked() && parent == old(parent)[c := t]
      ensures children == old(children)[t := old(children)[t] + [c]]
      ensures dirty == old(dirty) && rebuilt == old(rebuilt)
      ensures positions == old(positions) && rotations == old(rotations) && scales == old(scales)
    {
      AttachKeepsLinks(parent, children, t, c);
      children := children[t := children[t] + [c]];
      parent := parent[c := t];
    }

    /**
     * `construct_transform_matrices_if_invalid()`: matrices are rebuilt
     * only for an invalid transform, the parent's first, and each
     * rebuild clears that transform's flag.
     */
    method ConstructIfInvalid(t: nat, fuel: nat)
      requires Linked()
      modifies this
      ensures Linked() && rebuilt == old(rebuilt) + Rebuilds(old(parent), old(dirty), t, fuel)
      ensures dirty == old(dirty) - set x | x in Rebuilds(old(parent), old(dirty), t, fuel)
      ensures t !in dirty
      ensures parent == old(parent) && children == old(children)
      ensures positions == old(positions) && rotations == old(rotations) && scales == old(scales)
      decreases fuel, 1
    {
      if t in dirty {
        Construct(t, fuel);
      }
    }

    /**
     * `construct_transform_matrices()`: the parent's world matrix and its
     * inverse are read (each rebuilding the parent if it is invalid),
     * then t's matrices are built and its flag cleared.
     */
    method Construct(t: nat, fuel: nat)
      requires Linked() && t in dirty
      modifies this
      ensures Linked() && rebuilt == old(rebuilt) + Rebuilds(old(parent), old(dirty), t, fuel)
      ensures dirty == old(dirty) - set x | x in Rebuilds(old(parent), old(dirty), t, fuel)
      ensures parent == old(parent) && children == old(children)
      ensures positions == old(positions) && rotations == old(rotations) && scales == old(scales)
      decreases fuel, 0
    {
      if t in parent && fuel > 0 {
        var p := parent[t];
        ConstructIfInvalid(p, fuel - 1);
        ConstructIfInvalid(p, fuel - 1);
      }
      dirty := dirty - {t};
      rebuilt := rebuilt + [t];
    }
  }

  /**
   * With transform 2 the child of transform 1: moving 1 invalidates
   * both, and reading 2's world matrix rebuilds 1 and then 2; a second
   * read rebuilds nothing.
   */
  lemma ParentThenChild()
    ensures Subtree(map[1 := [2], 2 := []], 1, 2) == {1, 2}
    ensures Rebuilds(map[2 := 1], {1, 2}, 2, 2) == [1, 2]
    ensures Rebuilds(map[2 := 1], {}, 2, 2) == []
  {
    var ch := map[1 := [2], 2 := []];
    assert SubtreesOf(ch, [2], 1) == Subtree(ch, 2, 1);
  }
}
