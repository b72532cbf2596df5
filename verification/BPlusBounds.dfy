// What the shape of a B+ tree says about its size.
module BPlusBounds {
  import opened Sequences
  import opened BPlusGraph

  function Pow(b: nat, e: nat): nat
  {
    if e == 0 then 1 else b * Pow(b, e - 1)
  }

  lemma {:induction false} FlatAtLeast<T>(parts: seq<seq<T>>, m: nat)
    requires forall i | 0 <= i < |parts| :: |parts[i]| >= m
    ensures |Flat(parts)| >= |parts| * m
  {
    if |parts| > 0 {
      FlatAtLeast(parts[1..], m);
    }
  }

  lemma ScaleAtLeast(a: nat, b: nat, m: nat)
    requires a >= b
    ensures a * m >= b * m
  {
  }

  /** A node below the root, `height` levels above the leaves, holds at least this many records. */
  function LeastBelow(order: nat, height: nat): nat
  {
    Pow(order / 2 + 1, height) * ((order + 1) / 2)
  }

  lemma {:induction false} Fullness(order: nat, g: Graph, root: BPlusNode, n: BPlusNode)
    requires TreeOk(order, g, root, null) && n in g && n != root
    ensures |g[n].content| >= LeastBelow(order, g[n].height)
    decreases g[n].height
  {
    assert NodeOk(g, n);
    if !g[n].isLeaf {
      var h, kids := g[n].height, g[n].children;
      KidsFull(order, g, root, n);
      FlatAtLeast(Parts(g, kids), LeastBelow(order, h - 1));
      ScaleAtLeast(|kids|, order / 2 + 1, LeastBelow(order, h - 1));
      LeastStep(order, h);
    }
  }

  lemma {:induction false} KidsFull(order: nat, g: Graph, root: BPlusNode, n: BPlusNode)
    requires TreeOk(order, g, root, null) && n in g && !g[n].isLeaf
    ensures g[n].height > 0 && |g[n].children| == |g[n].keys| + 1 && g[n].content == Flat(Parts(g, g[n].children))
    ensures forall i | 0 <= i < |g[n].children| :: |Parts(g, g[n].children)[i]| >= LeastBelow(order, g[n].height - 1)
    decreases g[n].height, 0
  {
    assert NodeOk(g, n);
    forall i | 0 <= i < |g[n].children|
      ensures |Parts(g, g[n].children)[i]| >= LeastBelow(order, g[n].height - 1)
    {
      Fullness(order, g, root, g[n].children[i]);
    }
  }

  lemma LeastStep(order: nat, h: nat)
    requires h > 0
    ensures LeastBelow(order, h) == (order / 2 + 1) * LeastBelow(order, h - 1)
  {
    var b, p, m := order / 2 + 1, Pow(order / 2 + 1, h - 1), (order + 1) / 2;
    assert (b * p) * m == b * (p * m);
  }

  /** A tree with `h` levels above its leaves holds at least 2 * (order/2 + 1)^(h-1) * ((order+1)/2) records, so its
      height grows only with the logarithm of its size. */
  lemma SizeAtLeast(order: nat, g: Graph, root: BPlusNode)
    requires TreeOk(order, g, root, null) && g[root].height > 0
    ensures |g[root].content| >= 2 * Pow(order / 2 + 1, g[root].height - 1) * ((order + 1) / 2)
  {
    assert NodeOk(g, root);
    var h, kids := g[root].height, g[root].children;
    KidsFull(order, g, root, root);
    FlatAtLeast(Parts(g, kids), LeastBelow(order, h - 1));
    ScaleAtLeast(|kids|, 2, LeastBelow(order, h - 1));
    var p, m := Pow(order / 2 + 1, h - 1), (order + 1) / 2;
    assert 2 * p * m == 2 * (p * m);
  }

  /** `path` leads down from `n` to a leaf, each node a child of the one before. */
  ghost predicate PathDown(g: Graph, n: BPlusNode, path: seq<BPlusNode>)
  {
    && |path| > 0 && path[0] == n && n in g
    && if |path| == 1 then g[n].isLeaf else !g[n].isLeaf && path[1] in g[n].children && PathDown(g, path[1], path[1..])
  }

  /** All leaves lie at the same depth. */
  lemma {:induction false} LeavesAtOneDepth(g: Graph, n: BPlusNode, path: seq<BPlusNode>)
    requires AllOk(g) && PathDown(g, n, path)
    ensures |path| == g[n].height + 1
  {
    assert NodeOk(g, n);
    if |path| > 1 {
      LeavesAtOneDepth(g, path[1], path[1..]);
    }
  }
}
