// The nodes of a B+ tree and the graph they form.
module BPlusGraph {
  import opened Sequences

  datatype IndexRecord = IndexRecord(key: int, pageId: int, offset: int)

  class BPlusNode {
    var keys: seq<int>
    var children: seq<BPlusNode>
    var parent: BPlusNode?
    var records: seq<IndexRecord>
    var isLeaf: bool

    constructor (isLeaf: bool, parent: BPlusNode?, keys: seq<int>, records: seq<IndexRecord>, children: seq<BPlusNode>)
      ensures this.isLeaf == isLeaf && this.parent == parent && this.keys == keys
      ensures this.records == records && this.children == children
    {
      this.isLeaf, this.parent, this.keys, this.records, this.children := isLeaf, parent, keys, records, children;
    }

    /** The fields of this node are the ones `v` lists. */
    ghost predicate Is(v: NodeView)
      reads this
    {
      keys == v.keys && children == v.children && parent == v.parent && records == v.records && isLeaf == v.isLeaf
    }
  }

  /** A node's fields as a value, with what its subtree holds: the records of its leaves from left to right, and its
      distance from those leaves. */
  datatype NodeView = NodeView(keys: seq<int>, children: seq<BPlusNode>, parent: BPlusNode?,
                               records: seq<IndexRecord>, isLeaf: bool,
                               content: seq<IndexRecord>, height: nat)

  type Graph = map<BPlusNode, NodeView>

  ghost predicate Sorted(s: seq<IndexRecord>)
  {
    forall i, j | 0 <= i < j < |s| :: s[i].key <= s[j].key
  }

  ghost predicate HasKey(s: seq<IndexRecord>, key: int)
  {
    exists i :: 0 <= i < |s| && s[i].key == key
  }

  function ContentOf(g: Graph, n: BPlusNode): seq<IndexRecord>
  {
    if n in g then g[n].content else []
  }

  /** What each of the subtrees `kids` holds. */
  function Parts(g: Graph, kids: seq<BPlusNode>): (r: seq<seq<IndexRecord>>)
    ensures |r| == |kids| && forall i | 0 <= i < |kids| :: r[i] == ContentOf(g, kids[i])
  {
    seq(|kids|, i requires 0 <= i < |kids| => ContentOf(g, kids[i]))
  }

  // ---- What holds of one node -------------------------------------------------------------

  ghost predicate LeafOk(v: NodeView)
  {
    && v.children == [] && v.height == 0 && v.content == v.records
    && |v.keys| == |v.records|
    && forall i | 0 <= i < |v.keys| :: v.keys[i] == v.records[i].key
  }

  /** Each separator is the smallest key of the part on its right. */
  ghost predicate Separated(keys: seq<int>, parts: seq<seq<IndexRecord>>)
  {
    |parts| == |keys| + 1
    && forall i | 0 <= i < |keys| :: parts[i + 1] != [] && keys[i] == parts[i + 1][0].key
  }

  lemma SeparatedAt(keys: seq<int>, parts: seq<seq<IndexRecord>>, i: nat)
    requires Separated(keys, parts) && i < |keys|
    ensures parts[i + 1] != [] && parts[i + 1][0].key == keys[i]
  {
    var key := keys[i];
  }

  /** `n` is one level above each of its children, which point back at it. */
  ghost predicate ChildrenOk(g: Graph, n: BPlusNode)
    requires n in g
  {
    var v := g[n];
    && Distinct(v.children)
    && (forall i | 0 <= i < |v.children| ::
          v.children[i] in g && g[v.children[i]].parent == n && g[v.children[i]].height == v.height - 1)
  }

  /** An inner node holds what its children hold, in their order. */
  ghost predicate InnerOk(g: Graph, n: BPlusNode)
    requires n in g
  {
    var v := g[n];
    && v.records == [] && v.height > 0 && |v.children| == |v.keys| + 1
    && ChildrenOk(g, n)
    && v.content == Flat(Parts(g, v.children))
    && Separated(v.keys, Parts(g, v.children))
  }

  ghost predicate LinkOk(g: Graph, n: BPlusNode)
    requires n in g
  {
    g[n].parent != null ==>
      g[n].parent in g && !g[g[n].parent].isLeaf && n in g[g[n].parent].children && g[n].content != []
  }

  ghost predicate NodeOk(g: Graph, n: BPlusNode)
    requires n in g
  {
    Sorted(g[n].content) && LinkOk(g, n) && if g[n].isLeaf then LeafOk(g[n]) else InnerOk(g, n)
  }

  /** How full a node may be; the one node that is about to be split holds one key too many. */
  ghost predicate FillOk(order: nat, v: NodeView, overfull: bool)
  {
    && (if overfull then |v.keys| == order + 1 else |v.keys| <= order)
    && (v.parent != null ==> |v.keys| >= if v.isLeaf then (order + 1) / 2 else order / 2)
  }

  /** The shape of a whole tree of the given order, in which at most the node `over` is overfull and the root, while it
      is being replaced, may have a single child. */
  ghost predicate Shaped(order: nat, g: Graph, root: BPlusNode, over: BPlusNode?)
  {
    && 1 <= order
    && root in g && g[root].parent == null
    && forall n {:trigger NodeOk(g, n)} | n in g ::
         NodeOk(g, n) && (g[n].parent == null ==> n == root) && FillOk(order, g[n], n == over)
  }

  ghost predicate TreeOk(order: nat, g: Graph, root: BPlusNode, over: BPlusNode?)
  {
    Shaped(order, g, root, over) && (g[root].isLeaf || g[root].keys != [])
  }

  ghost predicate AllOk(g: Graph)
  {
    forall n {:trigger NodeOk(g, n)} | n in g :: NodeOk(g, n)
  }

  // ---- Descending to a leaf ---------------------------------------------------------------

  /** How many of the leading separators are at most `key`: the child to descend into. */
  function Route(keys: seq<int>, key: int): (i: nat)
    ensures i <= |keys|
    ensures forall j | 0 <= j < i :: keys[j] <= key
    ensures i < |keys| ==> key < keys[i]
  {
    if |keys| == 0 || key < keys[0] then 0 else 1 + Route(keys[1..], key)
  }

  /** The child of inner node `n` under which `key` belongs. */
  ghost function ChildFor(g: Graph, n: BPlusNode, key: int): (c: BPlusNode)
    requires AllOk(g) && n in g && !g[n].isLeaf
    ensures c in g && g[c].parent == n && g[c].height == g[n].height - 1
  {
    assert NodeOk(g, n);
    g[n].children[Route(g[n].keys, key)]
  }

  ghost function LeafFor(g: Graph, n: BPlusNode, key: int): (leaf: BPlusNode)
    requires AllOk(g) && n in g
    ensures leaf in g && g[leaf].isLeaf
    decreases g[n].height
  {
    if g[n].isLeaf then n else LeafFor(g, ChildFor(g, n, key), key)
  }

  /** What lies before and behind the part that `key` belongs to. */
  function Before(keys: seq<int>, parts: seq<seq<IndexRecord>>, key: int): seq<IndexRecord>
    requires |parts| == |keys| + 1
  {
    Flat(parts[..Route(keys, key)])
  }

  function Behind(keys: seq<int>, parts: seq<seq<IndexRecord>>, key: int): seq<IndexRecord>
    requires |parts| == |keys| + 1
  {
    Flat(parts[Route(keys, key) + 1..])
  }

  lemma AroundBehind(keys: seq<int>, parts: seq<seq<IndexRecord>>, key: int)
    requires Separated(keys, parts)
    ensures Behind(keys, parts, key) == [] || key < Behind(keys, parts, key)[0].key
  {
    var i := Route(keys, key);
    if i < |keys| {
      assert parts[i + 1..][0] == parts[i + 1];
    }
  }

  lemma AroundBefore(keys: seq<int>, parts: seq<seq<IndexRecord>>, key: int)
    requires Separated(keys, parts)
    ensures var part := parts[Route(keys, key)];
            Before(keys, parts, key) == [] || (part != [] && part[0].key <= key)
  {
    var i := Route(keys, key);
    if i > 0 {
      SeparatedAt(keys, parts, i - 1);
    }
  }

  /** Nothing before the part that `key` belongs to exceeds `key` or the part's first key; everything behind it
      exceeds `key`. */
  lemma Around(keys: seq<int>, parts: seq<seq<IndexRecord>>, key: int)
    requires Separated(keys, parts) && Sorted(Flat(parts))
    ensures var a: seq<IndexRecord>, part, b := Before(keys, parts, key), parts[Route(keys, key)],
            Behind(keys, parts, key);
            && Flat(parts) == a + part + b
            && (forall j | 0 <= j < |a| :: part != [] && a[j].key <= part[0].key <= key)
            && (forall j | 0 <= j < |b| :: key < b[j].key)
  {
    var a: seq<IndexRecord>, part, b := Before(keys, parts, key), parts[Route(keys, key)], Behind(keys, parts, key);
    FlatAt(parts, Route(keys, key));
    AroundBefore(keys, parts, key);
    AroundBehind(keys, parts, key);
    SortedAround(a, part, b);
  }

  lemma SortedAround(a: seq<IndexRecord>, part: seq<IndexRecord>, b: seq<IndexRecord>)
    requires Sorted(a + part + b)
    ensures part != [] ==> forall j | 0 <= j < |a| :: a[j].key <= part[0].key
    ensures forall j | 0 <= j < |b| :: b[0].key <= b[j].key
    ensures Sorted(part)
  {
    var all := a + part + b;
    forall j | 0 <= j < |a| && part != [] ensures a[j].key <= part[0].key {
      assert all[j] == a[j] && all[|a|] == part[0];
    }
    forall j | 0 <= j < |b| ensures b[0].key <= b[j].key {
      assert all[|a| + |part|] == b[0] && all[|a| + |part| + j] == b[j];
    }
    forall i, j | 0 <= i < j < |part| ensures part[i].key <= part[j].key {
      assert all[|a| + i] == part[i] && all[|a| + j] == part[j];
    }
  }

  /** A key occurs among the parts exactly when it occurs in the part it belongs to, also when equal keys lie on both
      sides of a separator. */
  lemma PartDecides(keys: seq<int>, parts: seq<seq<IndexRecord>>, key: int)
    requires Separated(keys, parts) && Sorted(Flat(parts))
    ensures HasKey(Flat(parts), key) <==> HasKey(parts[Route(keys, key)], key)
  {
    Around(keys, parts, key);
    var a: seq<IndexRecord>, part, b := Before(keys, parts, key), parts[Route(keys, key)], Behind(keys, parts, key);
    var all := a + part + b;
    forall j | |a| + |part| <= j < |all| ensures all[j].key != key {
      assert all[j] == b[j - |a| - |part|];
    }
    if j :| 0 <= j < |all| && all[j].key == key {
      if j < |a| {
        assert part[0].key == key;
      } else {
        assert part[j - |a|].key == key;
      }
    }
    if j :| 0 <= j < |part| && part[j].key == key {
      assert all[|a| + j].key == key;
    }
  }

  /** A key occurs under `n` exactly when it occurs in the one leaf that the descent reaches. */
  lemma {:induction false} LeafDecides(g: Graph, n: BPlusNode, key: int)
    requires AllOk(g) && n in g
    ensures HasKey(g[n].content, key) <==> HasKey(g[LeafFor(g, n, key)].records, key)
    ensures forall r | r in g[LeafFor(g, n, key)].records :: r in g[n].content
    decreases g[n].height
  {
    assert NodeOk(g, n);
    if !g[n].isLeaf {
      var parts := Parts(g, g[n].children);
      LeafDecides(g, ChildFor(g, n, key), key);
      PartDecides(g[n].keys, parts, key);
      FlatMembers(parts, Route(g[n].keys, key));
    }
  }

  lemma FlatMembers(parts: seq<seq<IndexRecord>>, i: nat)
    requires i < |parts|
    ensures forall r | r in parts[i] :: r in Flat(parts)
  {
    FlatAt(parts, i);
  }

  // ---- Adding a record below a node -------------------------------------------------------

  function InsertAt<T>(s: seq<T>, i: nat, x: T): seq<T>
    requires i <= |s|
  {
    s[..i] + [x] + s[i..]
  }

  /** `after` is `before` with `rec` put in somewhere. */
  ghost predicate Added(before: seq<IndexRecord>, after: seq<IndexRecord>, rec: IndexRecord)
  {
    exists p: nat :: p <= |before| && after == InsertAt(before, p, rec)
  }

  /** How many leading keys are below `key`: where a leaf puts it. */
  function Slot(keys: seq<int>, key: int): (i: nat)
    ensures i <= |keys|
    ensures forall j | 0 <= j < i :: keys[j] < key
    ensures i < |keys| ==> key <= keys[i]
  {
    if |keys| == 0 || key <= keys[0] then 0 else 1 + Slot(keys[1..], key)
  }

  /** Where the new record comes to stand among the records below `n`. */
  ghost function AddPos(g: Graph, n: BPlusNode, rec: IndexRecord): (p: nat)
    requires AllOk(g) && n in g
    ensures p <= |g[n].content|
    decreases g[n].height
  {
    assert NodeOk(g, n);
    if g[n].isLeaf then Slot(g[n].keys, rec.key)
    else
      FlatAt(Parts(g, g[n].children), Route(g[n].keys, rec.key));
      |Before(g[n].keys, Parts(g, g[n].children), rec.key)| + AddPos(g, ChildFor(g, n, rec.key), rec)
  }

  /** The leaf for the record takes it; every node above that leaf holds one record more. */
  ghost function AddTo(g: Graph, n: BPlusNode, rec: IndexRecord): (g': Graph)
    requires AllOk(g) && n in g
    ensures g'.Keys == g.Keys
    ensures forall m | m in g && m != n && g[m].height >= g[n].height :: g'[m] == g[m]
    decreases g[n].height
  {
    assert NodeOk(g, n);
    var v, p := g[n], AddPos(g, n, rec);
    if v.isLeaf then
      g[n := v.(keys := InsertAt(v.keys, p, rec.key), records := InsertAt(v.records, p, rec),
                content := InsertAt(v.content, p, rec))]
    else
      var g1 := AddTo(g, ChildFor(g, n, rec.key), rec);
      g1[n := v.(content := InsertAt(v.content, p, rec))]
  }

  ghost predicate SameLinks(v: NodeView, w: NodeView)
  {
    v.children == w.children && v.parent == w.parent && v.isLeaf == w.isLeaf && v.height == w.height
  }

  lemma {:induction false} AddKeepsLinks(g: Graph, n: BPlusNode, rec: IndexRecord)
    requires AllOk(g) && n in g
    ensures forall m {:trigger AddTo(g, n, rec)[m]} | m in g :: SameLinks(g[m], AddTo(g, n, rec)[m])
    decreases g[n].height
  {
    if !g[n].isLeaf {
      AddKeepsLinks(g, ChildFor(g, n, rec.key), rec);
    }
  }

  /** Only the leaf's keys and records change, and there the record goes before the first key that is not smaller. */
  lemma {:induction false} AddFillsLeaf(g: Graph, n: BPlusNode, rec: IndexRecord)
    requires AllOk(g) && n in g
    ensures var g', leaf := AddTo(g, n, rec), LeafFor(g, n, rec.key);
            && (forall m | m in g && m != leaf :: g'[m].keys == g[m].keys && g'[m].records == g[m].records)
            && var i := Slot(g[leaf].keys, rec.key);
               && i <= |g[leaf].records|
               && g'[leaf].keys == InsertAt(g[leaf].keys, i, rec.key)
               && g'[leaf].records == InsertAt(g[leaf].records, i, rec)
    decreases g[n].height
  {
    assert NodeOk(g, n);
    if !g[n].isLeaf {
      AddFillsLeaf(g, ChildFor(g, n, rec.key), rec);
      assert LeafFor(g, n, rec.key) != n;
    }
  }

  /** Everything before the place of the new record is at most its key, everything after it at least its key. */
  ghost predicate Splits(s: seq<IndexRecord>, p: nat, key: int)
  {
    && p <= |s|
    && (forall j | 0 <= j < p :: s[j].key <= key)
    && (forall j | p <= j < |s| :: key <= s[j].key)
  }

  lemma SplitsAround(keys: seq<int>, parts: seq<seq<IndexRecord>>, p: nat, key: int)
    requires Separated(keys, parts) && Sorted(Flat(parts))
    requires Splits(parts[Route(keys, key)], p, key)
    ensures Splits(Flat(parts), |Before(keys, parts, key)| + p, key)
  {
    Around(keys, parts, key);
    var a: seq<IndexRecord>, part, b := Before(keys, parts, key), parts[Route(keys, key)], Behind(keys, parts, key);
    SplitsWithin(a, part, b, p, key);
  }

  lemma SplitsWithin(a: seq<IndexRecord>, part: seq<IndexRecord>, b: seq<IndexRecord>, p: nat, key: int)
    requires Splits(part, p, key)
    requires forall j | 0 <= j < |a| :: a[j].key <= key
    requires forall j | 0 <= j < |b| :: key <= b[j].key
    ensures Splits(a + part + b, |a| + p, key)
  {
  }

  lemma {:induction false} AddPosSplits(g: Graph, n: BPlusNode, rec: IndexRecord)
    requires AllOk(g) && n in g
    ensures Splits(g[n].content, AddPos(g, n, rec), rec.key)
    decreases g[n].height
  {
    assert NodeOk(g, n);
    if g[n].isLeaf {
      SlotSplits(g[n], rec.key);
    } else {
      AddPosSplits(g, ChildFor(g, n, rec.key), rec);
      SplitsAround(g[n].keys, Parts(g, g[n].children), AddPos(g, ChildFor(g, n, rec.key), rec), rec.key);
    }
  }

  lemma SlotSplits(v: NodeView, key: int)
    requires LeafOk(v) && Sorted(v.content)
    ensures Splits(v.content, Slot(v.keys, key), key)
  {
  }

  lemma SortedInsert(s: seq<IndexRecord>, p: nat, rec: IndexRecord)
    requires Sorted(s) && Splits(s, p, rec.key)
    ensures Sorted(InsertAt(s, p, rec))
    ensures p > 0 ==> InsertAt(s, p, rec)[0] == s[0]
    ensures |s| > 0 && s[0].key <= rec.key ==> InsertAt(s, p, rec)[0].key == s[0].key
  {
  }

  lemma FlatUpdate<T>(parts: seq<seq<T>>, i: nat, part: seq<T>)
    requires i < |parts|
    ensures Flat(parts[i := part]) == Flat(parts[..i]) + part + Flat(parts[i + 1..])
  {
    FlatAt(parts[i := part], i);
    assert parts[i := part][..i] == parts[..i] && parts[i := part][i + 1..] == parts[i + 1..];
  }

  /** Putting one more record into the part it belongs to puts it into the whole ... */
  lemma PartTakes(keys: seq<int>, parts: seq<seq<IndexRecord>>, p: nat, rec: IndexRecord)
    requires |parts| == |keys| + 1 && p <= |parts[Route(keys, rec.key)]|
    ensures |Before(keys, parts, rec.key)| + p <= |Flat(parts)|
    ensures var i := Route(keys, rec.key);
            Flat(parts[i := InsertAt(parts[i], p, rec)])
            == InsertAt(Flat(parts), |Before(keys, parts, rec.key)| + p, rec)
  {
    var i := Route(keys, rec.key);
    FlatAt(parts, i);
    FlatUpdate(parts, i, InsertAt(parts[i], p, rec));
    InsertWithin(Before(keys, parts, rec.key), parts[i], Behind(keys, parts, rec.key), p, rec);
  }

  lemma InsertWithin<T>(a: seq<T>, part: seq<T>, b: seq<T>, p: nat, x: T)
    requires p <= |part|
    ensures a + InsertAt(part, p, x) + b == InsertAt(a + part + b, |a| + p, x)
  {
  }

  /** ... and no separator changes. */
  lemma PartTakesSeparated(keys: seq<int>, parts: seq<seq<IndexRecord>>, p: nat, rec: IndexRecord)
    requires Separated(keys, parts)
    requires var part := parts[Route(keys, rec.key)]; Sorted(part) && Splits(part, p, rec.key)
    ensures var i := Route(keys, rec.key); Separated(keys, parts[i := InsertAt(parts[i], p, rec)])
  {
    var i := Route(keys, rec.key);
    if i > 0 {
      SeparatedAt(keys, parts, i - 1);
      SortedInsert(parts[i], p, rec);
    }
  }

  /** Changing one node but not its links leaves every other node in order, except perhaps its parent. */
  lemma UpdateKeeps(g: Graph, n: BPlusNode, w: NodeView, m: BPlusNode)
    requires n in g && SameLinks(g[n], w) && (g[n].content != [] ==> w.content != [])
    requires m in g && m != n && m != g[n].parent && NodeOk(g, m)
    ensures NodeOk(g[n := w], m)
  {
    var g', v := g[n := w], g[m];
    assert LinkOk(g', m);
    if !v.isLeaf {
      assert n !in v.children;
      assert Parts(g', v.children) == Parts(g, v.children);
    }
  }

  lemma AddSorted(g: Graph, n: BPlusNode, rec: IndexRecord)
    requires AllOk(g) && n in g
    ensures Sorted(InsertAt(g[n].content, AddPos(g, n, rec), rec))
  {
    assert NodeOk(g, n);
    AddPosSplits(g, n, rec);
    SortedInsert(g[n].content, AddPos(g, n, rec), rec);
  }

  lemma AddLeafKeepsNodes(g: Graph, n: BPlusNode, rec: IndexRecord)
    requires AllOk(g) && n in g && g[n].isLeaf
    ensures forall m {:trigger NodeOk(AddTo(g, n, rec), m)} | m in g && m != g[n].parent :: NodeOk(AddTo(g, n, rec), m)
  {
    assert NodeOk(g, n);
    var g' := AddTo(g, n, rec);
    forall m | m in g && m != g[n].parent && m != n ensures NodeOk(g', m) {
      UpdateKeeps(g, n, g'[n], m);
    }
    AddSorted(g, n, rec);
    assert LeafOk(g'[n]);
  }

  lemma AddInnerKeepsNodes(g: Graph, n: BPlusNode, rec: IndexRecord)
    requires AllOk(g) && n in g && !g[n].isLeaf
    requires forall m {:trigger NodeOk(AddTo(g, ChildFor(g, n, rec.key), rec), m)} | m in g && m != n ::
               NodeOk(AddTo(g, ChildFor(g, n, rec.key), rec), m)
    ensures forall m {:trigger NodeOk(AddTo(g, n, rec), m)} | m in g && m != g[n].parent :: NodeOk(AddTo(g, n, rec), m)
  {
    var g', g1 := AddTo(g, n, rec), AddTo(g, ChildFor(g, n, rec.key), rec);
    AddKeepsLinks(g, ChildFor(g, n, rec.key), rec);
    forall m | m in g && m != g[n].parent && m != n ensures NodeOk(g', m) {
      UpdateKeeps(g1, n, g'[n], m);
    }
    AddInnerNode(g, n, rec);
  }

  lemma AddInnerNode(g: Graph, n: BPlusNode, rec: IndexRecord)
    requires AllOk(g) && n in g && !g[n].isLeaf
    ensures NodeOk(AddTo(g, n, rec), n)
  {
    assert NodeOk(g, n);
    AddSorted(g, n, rec);
    AddInnerChildren(g, n, rec);
    AddInnerContent(g, n, rec);
    AddInnerSeparated(g, n, rec);
    assert LinkOk(AddTo(g, n, rec), n) by {
      AddKeepsLinks(g, n, rec);
    }
  }

  lemma AddInnerChildren(g: Graph, n: BPlusNode, rec: IndexRecord)
    requires AllOk(g) && n in g && !g[n].isLeaf
    ensures ChildrenOk(AddTo(g, n, rec), n)
  {
    var v, g' := g[n], AddTo(g, n, rec);
    assert NodeOk(g, n);
    AddKeepsLinks(g, n, rec);
    forall i | 0 <= i < |v.children| ensures g'[v.children[i]].parent == n && g'[v.children[i]].height == v.height - 1 {
      assert SameLinks(g[v.children[i]], g'[v.children[i]]);
    }
  }

  lemma AddInnerContent(g: Graph, n: BPlusNode, rec: IndexRecord)
    requires AllOk(g) && n in g && !g[n].isLeaf
    ensures AddTo(g, n, rec)[n].content == Flat(Parts(AddTo(g, n, rec), g[n].children))
  {
    var c := ChildFor(g, n, rec.key);
    assert NodeOk(g, n);
    AddInnerParts(g, n, rec);
    PartTakes(g[n].keys, Parts(g, g[n].children), AddPos(g, c, rec), rec);
  }

  lemma AddInnerSeparated(g: Graph, n: BPlusNode, rec: IndexRecord)
    requires AllOk(g) && n in g && !g[n].isLeaf
    ensures Separated(g[n].keys, Parts(AddTo(g, n, rec), g[n].children))
  {
    var c := ChildFor(g, n, rec.key);
    assert NodeOk(g, n) && NodeOk(g, c);
    AddInnerParts(g, n, rec);
    AddPosSplits(g, c, rec);
    PartTakesSeparated(g[n].keys, Parts(g, g[n].children), AddPos(g, c, rec), rec);
  }

  lemma AddInnerParts(g: Graph, n: BPlusNode, rec: IndexRecord)
    requires AllOk(g) && n in g && !g[n].isLeaf
    ensures var v, c := g[n], ChildFor(g, n, rec.key);
            var parts, i := Parts(g, v.children), Route(v.keys, rec.key);
            && |parts| == |v.keys| + 1 && parts[i] == g[c].content
            && Parts(AddTo(g, n, rec), v.children) == parts[i := InsertAt(parts[i], AddPos(g, c, rec), rec)]
  {
    var v, c, g' := g[n], ChildFor(g, n, rec.key), AddTo(g, n, rec);
    assert NodeOk(g, n);
    var i := Route(v.keys, rec.key);
    forall j | 0 <= j < |v.children| && j != i ensures ContentOf(g', v.children[j]) == ContentOf(g, v.children[j]) {
      assert v.children[j] != c && g[v.children[j]].height == g[c].height;
    }
    assert g'[c].content == AddTo(g, c, rec)[c].content;
  }

  /** After the descent every node is in order again, except that the parent of `n` still lists one record too few. */
  lemma {:induction false} AddKeepsNodes(g: Graph, n: BPlusNode, rec: IndexRecord)
    requires AllOk(g) && n in g
    ensures forall m {:trigger NodeOk(AddTo(g, n, rec), m)} | m in g && m != g[n].parent :: NodeOk(AddTo(g, n, rec), m)
    decreases g[n].height
  {
    if g[n].isLeaf {
      AddLeafKeepsNodes(g, n, rec);
    } else {
      AddKeepsNodes(g, ChildFor(g, n, rec.key), rec);
      AddInnerKeepsNodes(g, n, rec);
    }
  }

  /** The same node in memory, whatever its subtree holds. */
  ghost predicate SameFields(v: NodeView, w: NodeView)
  {
    SameLinks(v, w) && v.keys == w.keys && v.records == w.records
  }

  lemma AddTouchesLeaf(g: Graph, n: BPlusNode, rec: IndexRecord)
    requires AllOk(g) && n in g
    ensures var g', leaf := AddTo(g, n, rec), LeafFor(g, n, rec.key);
            var i := Slot(g[leaf].keys, rec.key);
            && (forall m {:trigger g'[m]} | m in g && m != leaf :: SameFields(g[m], g'[m]))
            && i <= |g[leaf].records|
            && SameFields(g'[leaf], g[leaf].(keys := InsertAt(g[leaf].keys, i, rec.key),
                                             records := InsertAt(g[leaf].records, i, rec)))
  {
    AddFillsLeaf(g, n, rec);
    AddKeepsLinks(g, n, rec);
  }

  /** Insertion below the root keeps the tree's shape, except that the leaf it ends in may now be overfull. */
  lemma AddKeepsTree(order: nat, g: Graph, root: BPlusNode, rec: IndexRecord)
    requires TreeOk(order, g, root, null)
    ensures var leaf := LeafFor(g, root, rec.key);
            TreeOk(order, AddTo(g, root, rec), root, if |g[leaf].keys| + 1 > order then leaf else null)
  {
    var leaf, g' := LeafFor(g, root, rec.key), AddTo(g, root, rec);
    var over := if |g[leaf].keys| + 1 > order then leaf else null;
    AddKeepsNodes(g, root, rec);
    AddKeepsLinks(g, root, rec);
    AddFillsLeaf(g, root, rec);
    forall m | m in g
      ensures NodeOk(g', m) && (g'[m].parent == null ==> m == root) && FillOk(order, g'[m], m == over)
    {
      assert NodeOk(g, m);
      assert SameLinks(g[m], g'[m]);
    }
  }
}
