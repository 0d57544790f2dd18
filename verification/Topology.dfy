/**
 The common-ancestor walk of ucp/_libs/src/topological_distance.c over hwloc's object tree. The
 walk moves whichever object has the smaller `depth`; hwloc numbers I/O objects with negative
 virtual depths, so that number need not say how far an object is from the root.
 */
module Topology {
  import opened Wrappers

  /** An hwloc object. `height` counts the steps to the root. */
  class HwlocObj {
    const depth: int
    const parent: HwlocObj?
    ghost const height: nat

    constructor Root(depth: int)
      ensures this.depth == depth && parent == null && height == 0
    {
      this.depth := depth;
      parent := null;
      height := 0;
    }

    constructor Child(depth: int, parent: HwlocObj)
      ensures this.depth == depth && this.parent == parent && height == parent.height + 1
    {
      this.depth := depth;
      this.parent := parent;
      height := parent.height + 1;
    }
  }

  /** The parent pointers of `o` lead to a root. */
  ghost predicate Rooted(o: HwlocObj)
    decreases o.height
  {
    if o.parent == null then o.height == 0
    else o.height == o.parent.height + 1 && Rooted(o.parent)
  }

  /** `o` and everything above it. */
  ghost function Ancestors(o: HwlocObj): set<HwlocObj>
    requires Rooted(o)
    decreases o.height
  {
    {o} + if o.parent == null then {} else Ancestors(o.parent)
  }

  /** The common ancestors of `x` and `y` are `r` and what lies above it. */
  ghost predicate IsLca(r: HwlocObj, x: HwlocObj, y: HwlocObj)
    requires Rooted(r) && Rooted(x) && Rooted(y)
  {
    Ancestors(r) == Ancestors(x) * Ancestors(y)
  }

  /** How a walk ends: at an object, with both pointers NULL, or by following a NULL pointer. */
  datatype Outcome = At(obj: HwlocObj) | BothNull | Fault

  /** The walk, one pointer move at a time. */
  ghost function Walk(x: HwlocObj, y: HwlocObj): Outcome
    requires Rooted(x) && Rooted(y)
    decreases x.height + y.height
  {
    if x == y then At(x)
    else if x.depth < y.depth then if x.parent == null then Fault else Walk(x.parent, y)
    else if y.depth < x.depth then if y.parent == null then Fault else Walk(x, y.parent)
    else if x.parent == null && y.parent == null then BothNull
    else if x.parent == null || y.parent == null then Fault
    else Walk(x.parent, y.parent)
  }

  /** `hwloc_get_common_pcidev_ancestor_obj`, with its nested loops. */
  method CommonAncestor(obj1: HwlocObj, obj2: HwlocObj) returns (r: Outcome)
    requires Rooted(obj1) && Rooted(obj2)
    ensures r == Walk(obj1, obj2)
  {
    var x: HwlocObj, y: HwlocObj := obj1, obj2;
    while x != y
      invariant Rooted(x) && Rooted(y) && Walk(x, y) == Walk(obj1, obj2)
      decreases x.height + y.height
    {
      ghost var x0, y0 := x, y;
      while x.depth < y.depth
        invariant Rooted(x) && Walk(x, y) == Walk(obj1, obj2)
        invariant x == x0 || x.height < x0.height
        decreases x.height
      {
        if x.parent == null {
          return Fault;
        }
        x := x.parent;
      }
      while y.depth < x.depth
        invariant Rooted(y) && Walk(x, y) == Walk(obj1, obj2)
        invariant y == y0 || y.height < y0.height
        decreases y.height
      {
        if y.parent == null {
          return Fault;
        }
        y := y.parent;
      }
      if x != y && x.depth == y.depth {
        if x.parent == null && y.parent == null {
          return BothNull;
        }
        if x.parent == null || y.parent == null {
          return Fault;
        }
        x, y := x.parent, y.parent;
      }
    }
    r := At(x);
  }

  lemma {:induction false} AncestorFacts(a: HwlocObj, o: HwlocObj)
    requires Rooted(o) && a in Ancestors(o)
    ensures Rooted(a) && Ancestors(a) <= Ancestors(o) && (a == o || a.height < o.height)
    decreases o.height
  {
    if a != o {
      AncestorFacts(a, o.parent);
    }
  }

  /** Whatever the depths are, the walk only ends at a common ancestor. */
  lemma {:induction false} WalkEndsAbove(x: HwlocObj, y: HwlocObj)
    requires Rooted(x) && Rooted(y) && Walk(x, y).At?
    ensures Walk(x, y).obj in Ancestors(x) && Walk(x, y).obj in Ancestors(y)
    decreases x.height + y.height
  {
    if x != y {
      if x.depth < y.depth {
        WalkEndsAbove(x.parent, y);
      } else if y.depth < x.depth {
        WalkEndsAbove(x, y.parent);
      } else {
        WalkEndsAbove(x.parent, y.parent);
      }
    }
  }

  // ---------------------------------------------------------------------------------------
  // When the walk is right

  /** The depths on the path from `o` up to `r`, without `r`, that are not below that of `r` nor
      below any that follow. */
  ghost function Peaks(o: HwlocObj, r: HwlocObj): (p: seq<int>)
    requires Rooted(o) && r in Ancestors(o)
    ensures forall i :: 0 <= i < |p| ==> r.depth <= p[i] <= p[0]
    ensures o != r && o.depth >= r.depth ==> p != [] && p[0] >= o.depth
    decreases o.height
  {
    if o == r then []
    else
      var above := Peaks(o.parent, r);
      if o.depth >= r.depth && (above == [] || o.depth >= above[0]) then [o.depth] + above else above
  }

  /** Moving up from an object that is not the lowest common ancestor does not change which it is. */
  lemma MoveUp(x: HwlocObj, y: HwlocObj, r: HwlocObj)
    requires Rooted(x) && Rooted(y) && Rooted(r) && IsLca(r, x, y) && x != r
    ensures r in Ancestors(x) && r in Ancestors(y) && x !in Ancestors(y)
    ensures x.parent != null && IsLca(r, x.parent, y) && r in Ancestors(x.parent)
  {
    assert r in Ancestors(r);
    assert x !in Ancestors(y) by {
      if x in Ancestors(y) {
        assert x in Ancestors(r);
        AncestorFacts(x, r);
        AncestorFacts(r, x);
      }
    }
    assert Ancestors(x) == {x} + Ancestors(x.parent);
  }

  /** The walk does not come back to an object that it has left behind. */
  lemma LeftBehind(r: HwlocObj, y: HwlocObj)
    requires Rooted(r) && r.parent != null && Rooted(y)
    ensures Walk(r.parent, y) != At(r) && Walk(y, r.parent) != At(r)
  {
    if Walk(r.parent, y) == At(r) {
      WalkEndsAbove(r.parent, y);
      AncestorFacts(r, r.parent);
    }
    if Walk(y, r.parent) == At(r) {
      WalkEndsAbove(y, r.parent);
      AncestorFacts(r, r.parent);
    }
  }

  /** From an object and one below it. */
  lemma {:induction false} WalkFromAbove(r: HwlocObj, y: HwlocObj)
    requires Rooted(r) && Rooted(y) && r in Ancestors(y)
    ensures Walk(r, y) == At(r) <==> Peaks(y, r) == []
    ensures Walk(y, r) == At(r) <==> Peaks(y, r) == []
    decreases y.height
  {
    if y != r {
      if y.depth < r.depth {
        WalkFromAbove(r, y.parent);
      } else if r.parent != null {
        LeftBehind(r, y);
        LeftBehind(r, y.parent);
      }
    }
  }

  /** The walk from two objects ends at their lowest common ancestor exactly when the peaks on the
      two paths to it are the same. */
  lemma {:induction false} WalkFindsLcaIff(x: HwlocObj, y: HwlocObj, r: HwlocObj)
    requires Rooted(x) && Rooted(y) && Rooted(r) && IsLca(r, x, y)
    ensures r in Ancestors(x) && r in Ancestors(y)
    ensures Walk(x, y) == At(r) <==> Peaks(x, r) == Peaks(y, r)
    decreases x.height + y.height
  {
    assert r in Ancestors(r);
    if x == r {
      WalkFromAbove(r, y);
    } else if y == r {
      WalkFromAbove(r, x);
    } else {
      MoveUp(x, y, r);
      MoveUp(y, x, r);
      if x.depth < y.depth {
        WalkFindsLcaIff(x.parent, y, r);
      } else if y.depth < x.depth {
        WalkFindsLcaIff(x, y.parent, r);
      } else {
        MoveUp(y, x.parent, r);
        WalkFindsLcaIff(x.parent, y.parent, r);
        var p, q := Peaks(x.parent, r), Peaks(y.parent, r);
        assert ([x.depth] + p)[1..] == p && ([y.depth] + q)[1..] == q;
      }
    }
  }

  lemma {:induction false} NoPeaksIff(o: HwlocObj, r: HwlocObj)
    requires Rooted(o) && Rooted(r) && r in Ancestors(o)
    ensures Peaks(o, r) == [] <==> forall a :: a in Ancestors(o) && a !in Ancestors(r) ==> a.depth < r.depth
    decreases o.height
  {
    if o != r {
      NoPeaksIff(o.parent, r);
      assert o !in Ancestors(r) by {
        if o in Ancestors(r) {
          AncestorFacts(o, r);
          AncestorFacts(r, o);
        }
      }
      assert Ancestors(o) == {o} + Ancestors(o.parent);
    }
  }

  /** In particular it does when everything below the lowest common ancestor, on both paths, has a
      smaller depth; what lies above does not matter. If one path is empty or has no object as deep as
      the ancestor, that is also necessary. */
  lemma WalkFindsLca(x: HwlocObj, y: HwlocObj, r: HwlocObj)
    requires Rooted(x) && Rooted(y) && Rooted(r) && IsLca(r, x, y)
    requires forall a :: a in Ancestors(x) && a !in Ancestors(r) ==> a.depth < r.depth
    ensures Walk(x, y) == At(r)
            <==> forall a :: a in Ancestors(y) && a !in Ancestors(r) ==> a.depth < r.depth
  {
    WalkFindsLcaIff(x, y, r);
    NoPeaksIff(x, r);
    NoPeaksIff(y, r);
  }

  // ---------------------------------------------------------------------------------------
  // Whole trees

  /** A finite tree: closed under `parent`, with every two objects below a common one. */
  ghost predicate IsTree(nodes: set<HwlocObj>) {
    && (forall x :: x in nodes ==> Rooted(x) && (x.parent != null ==> x.parent in nodes))
    && (forall x, y :: x in nodes && y in nodes ==> Ancestors(x) * Ancestors(y) != {})
  }

  /** In a tree in which depth strictly increases toward the root there are no peaks. */
  lemma {:induction false} IncreasingNoPeaks(nodes: set<HwlocObj>, o: HwlocObj, r: HwlocObj)
    requires IsTree(nodes) && o in nodes && r in Ancestors(o)
    requires forall o :: o in nodes && o.parent != null ==> o.depth < o.parent.depth
    ensures Peaks(o, r) == [] && o.depth <= r.depth
    decreases o.height
  {
    if o != r {
      IncreasingNoPeaks(nodes, o.parent, r);
    }
  }

  lemma {:induction false} LcaExists(x: HwlocObj, y: HwlocObj) returns (r: HwlocObj)
    requires Rooted(x) && Rooted(y) && Ancestors(x) * Ancestors(y) != {}
    ensures Rooted(r) && IsLca(r, x, y) && r in Ancestors(x) && r in Ancestors(y)
    decreases x.height
  {
    if x in Ancestors(y) {
      AncestorFacts(x, y);
      r := x;
    } else {
      assert Ancestors(x) * Ancestors(y) == if x.parent == null then {} else Ancestors(x.parent) * Ancestors(y);
      r := LcaExists(x.parent, y);
    }
  }

  lemma {:induction false} LcaUnique(r: HwlocObj, q: HwlocObj)
    requires Rooted(r) && Rooted(q) && Ancestors(r) == Ancestors(q)
    ensures r == q
  {
    AncestorFacts(r, q);
    AncestorFacts(q, r);
  }

  ghost predicate FindsLca(x: HwlocObj, y: HwlocObj)
    requires Rooted(x) && Rooted(y)
  {
    Walk(x, y).At? && Rooted(Walk(x, y).obj) && IsLca(Walk(x, y).obj, x, y)
  }

  /** One edge on which depth does not increase already defeats the walk: from a child and its
      parent it goes past the parent, or faults. */
  lemma FlatEdgeMissesLca(x: HwlocObj)
    requires Rooted(x) && x.parent != null && x.depth >= x.parent.depth
    ensures Walk(x, x.parent) != At(x.parent) && IsLca(x.parent, x, x.parent)
  {
    assert Ancestors(x) * Ancestors(x.parent) == Ancestors(x.parent);
    WalkFromAbove(x.parent, x);
  }

  /** The walk finds the lowest common ancestor of every two objects of a tree exactly when depth
      strictly increases from every object to its parent. */
  lemma WalkCorrectIff(nodes: set<HwlocObj>)
    requires IsTree(nodes)
    ensures (forall x, y :: x in nodes && y in nodes ==> FindsLca(x, y))
            <==> (forall o :: o in nodes && o.parent != null ==> o.depth < o.parent.depth)
  {
    if forall o :: o in nodes && o.parent != null ==> o.depth < o.parent.depth {
      forall x, y | x in nodes && y in nodes
        ensures FindsLca(x, y)
      {
        var r := LcaExists(x, y);
        IncreasingNoPeaks(nodes, x, r);
        IncreasingNoPeaks(nodes, y, r);
        WalkFindsLcaIff(x, y, r);
      }
    } else {
      var o :| o in nodes && o.parent != null && o.depth >= o.parent.depth;
      FlatEdgeMissesLca(o);
      if FindsLca(o, o.parent) {
        LcaUnique(Walk(o, o.parent).obj, o.parent);
      }
    }
  }
}
