// Splitting an overfull node of a B+ tree.
module BPlusSplit {
  import opened Sequences
  import opened BPlusGraph

  /** A node cut in two, and the key that separates the halves. */
  datatype Cut = Cut(left: NodeView, right: NodeView, key: int)

  function LeafCut(v: NodeView, middle: nat): Cut
    requires middle < |v.keys| && |v.keys| == |v.records| == |v.content|
  {
    Cut(v.(keys := v.keys[..middle], records := v.records[..middle], content := v.content[..middle]),
        v.(keys := v.keys[middle..], records := v.records[middle..], content := v.content[middle..]),
        v.keys[middle])
  }

  /** The middle key moves up: it stays in neither half. */
  function InnerCut(g: Graph, v: NodeView, middle: nat): Cut
    requires middle < |v.keys| && |v.children| == |v.keys| + 1
  {
    var l, r := v.children[..middle + 1], v.children[middle + 1..];
    Cut(v.(keys := v.keys[..middle], children := l, content := Flat(Parts(g, l))),
        v.(keys := v.keys[middle + 1..], children := r, content := Flat(Parts(g, r))),
        v.keys[middle])
  }

  /** One half of `v`: in order by itself. */
  ghost predicate HalfOk(g: Graph, v: NodeView, half: NodeView)
  {
    && half.content != [] && half.parent == v.parent && half.isLeaf == v.isLeaf && half.height == v.height
    && if v.isLeaf then LeafOk(half) else
         && half.records == [] && |half.children| == |half.keys| + 1
         && half.content == Flat(Parts(g, half.children)) && Separated(half.keys, Parts(g, half.children))
  }

  ghost predicate CutOk(g: Graph, v: NodeView, cut: Cut)
  {
    && HalfOk(g, v, cut.left) && HalfOk(g, v, cut.right)
    && v.content == cut.left.content + cut.right.content
    && v.children == cut.left.children + cut.right.children
    && cut.key == cut.right.content[0].key
  }

  lemma LeafCutOk(g: Graph, n: BPlusNode, middle: nat)
    requires n in g && g[n].isLeaf && NodeOk(g, n) && 0 < middle < |g[n].keys|
    ensures LeafOk(g[n]) && CutOk(g, g[n], LeafCut(g[n], middle))
  {
    var v, cut := g[n], LeafCut(g[n], middle);
    assert v.content == cut.left.content + cut.right.content;
    assert v.children == cut.left.children + cut.right.children;
    assert cut.right.content[0] == v.records[middle];
    assert HalfOk(g, v, cut.left);
    assert HalfOk(g, v, cut.right);
  }

  lemma FlatHead<T>(parts: seq<seq<T>>)
    requires parts != [] && parts[0] != []
    ensures Flat(parts) != [] && Flat(parts)[0] == parts[0][0]
  {
    assert Flat(parts) == parts[0] + Flat(parts[1..]);
  }

  lemma SeparatedSlices(keys: seq<int>, parts: seq<seq<IndexRecord>>, middle: nat)
    requires Separated(keys, parts) && middle < |keys|
    ensures Separated(keys[..middle], parts[..middle + 1]) && Separated(keys[middle + 1..], parts[middle + 1..])
  {
    var l: seq<seq<IndexRecord>>, r: seq<seq<IndexRecord>> := parts[..middle + 1], parts[middle + 1..];
    forall j | 0 <= j < middle ensures l[j + 1] != [] && keys[..middle][j] == l[j + 1][0].key {
      SeparatedAt(keys, parts, j);
    }
    var rkeys := keys[middle + 1..];
    forall j | 0 <= j < |rkeys| ensures r[j + 1] != [] && rkeys[j] == r[j + 1][0].key {
      SeparatedAt(keys, parts, middle + 1 + j);
    }
  }

  lemma PartsCut(keys: seq<int>, parts: seq<seq<IndexRecord>>, middle: nat)
    requires Separated(keys, parts) && middle < |keys| && parts[0] != []
    ensures var l, r := parts[..middle + 1], parts[middle + 1..];
            && Separated(keys[..middle], l) && Separated(keys[middle + 1..], r)
            && Flat(parts) == Flat(l) + Flat(r)
            && Flat(l) != [] && Flat(r) != [] && Flat(r)[0].key == keys[middle]
  {
    var l: seq<seq<IndexRecord>>, r: seq<seq<IndexRecord>> := parts[..middle + 1], parts[middle + 1..];
    SeparatedSlices(keys, parts, middle);
    assert parts == l + r;
    FlatAppend(l, r);
    SeparatedAt(keys, parts, middle);
    FlatHead(l);
    FlatHead(r);
  }

  lemma PartsOfSlices(g: Graph, kids: seq<BPlusNode>, i: nat)
    requires i <= |kids|
    ensures Parts(g, kids[..i]) == Parts(g, kids)[..i] && Parts(g, kids[i..]) == Parts(g, kids)[i..]
  {
  }

  lemma InnerCutOk(g: Graph, n: BPlusNode, middle: nat)
    requires n in g && AllOk(g) && !g[n].isLeaf && middle < |g[n].keys|
    ensures |g[n].children| == |g[n].keys| + 1 && CutOk(g, g[n], InnerCut(g, g[n], middle))
  {
    var v := g[n];
    assert NodeOk(g, n);
    assert Parts(g, v.children)[0] != [] by {
      assert NodeOk(g, v.children[0]);
    }
    PartsCut(v.keys, Parts(g, v.children), middle);
    PartsOfSlices(g, v.children, middle + 1);
    assert v.children == v.children[..middle + 1] + v.children[middle + 1..];
  }

  // ---- Hooking the right half in ----------------------------------------------------------

  /** The children in `kids` now belong to `p`. */
  function Reparent(g: Graph, kids: seq<BPlusNode>, p: BPlusNode): (g': Graph)
    ensures g'.Keys == g.Keys
    ensures forall m | m in g :: g'[m] == if m in kids then g[m].(parent := p) else g[m]
  {
    map m | m in g :: if m in kids then g[m].(parent := p) else g[m]
  }

  lemma ReparentOne(g: Graph, kids: seq<BPlusNode>, i: nat, p: BPlusNode)
    requires i < |kids| && kids[i] in g
    ensures var g1 := Reparent(g, kids[..i], p);
            Reparent(g, kids[..i + 1], p) == g1[kids[i] := g1[kids[i]].(parent := p)]
  {
    assert kids[..i + 1] == kids[..i] + [kids[i]];
  }

  /** The graph after `n`, child `i` of its parent, was cut and `right` became the parent's child behind it. */
  function Split(g: Graph, n: BPlusNode, right: BPlusNode, cut: Cut, i: nat): (g': Graph)
    requires n in g && g[n].parent != null && g[n].parent in g
    requires i <= |g[g[n].parent].keys| && i < |g[g[n].parent].children|
    ensures g'.Keys == g.Keys + {right}
  {
    var p: BPlusNode := g[n].parent;
    var v := g[p];
    Reparent(g, cut.right.children, right)
      [n := cut.left][right := cut.right]
      [p := v.(keys := v.keys[..i] + [cut.key] + v.keys[i..],
               children := v.children[..i + 1] + [right] + v.children[i + 1..])]
  }

  /** `n` can be cut: its right half is a new node, and it is child `i` of its parent. */
  ghost predicate CanSplit(g: Graph, n: BPlusNode, right: BPlusNode, cut: Cut, i: nat)
  {
    && AllOk(g) && n in g && right !in g && NodeOk(g, n) && CutOk(g, g[n], cut)
    && g[n].parent != null && NodeOk(g, g[n].parent)
    && i < |g[g[n].parent].children| && g[g[n].parent].children[i] == n
  }

  /** The children of the two halves lie below `n` and are all different. */
  lemma CutKids(g: Graph, n: BPlusNode, right: BPlusNode, cut: Cut, i: nat)
    requires CanSplit(g, n, right, cut, i)
    ensures Distinct(cut.left.children) && Distinct(cut.right.children)
    ensures forall c | c in cut.left.children :: c !in cut.right.children
    ensures forall c | c in cut.left.children + cut.right.children ::
              c in g && g[c].parent == n && g[c].height < g[n].height && c != n && c != g[n].parent && c != right
  {
    var l, r := cut.left.children, cut.right.children;
    assert g[n].children == l + r;
    if !g[n].isLeaf {
      forall c | c in l + r ensures c in g && g[c].parent == n && g[c].height < g[n].height {
        var j :| 0 <= j < |l + r| && c == (l + r)[j];
        assert g[n].children[j] == c;
      }
    }
    DistinctPieces(l, r);
    assert g[g[n].parent].height > g[n].height by {
      assert NodeOk(g, g[n].parent);
    }
  }

  /** What every node looks like after a split. */
  lemma SplitViews(g: Graph, n: BPlusNode, right: BPlusNode, cut: Cut, i: nat)
    requires CanSplit(g, n, right, cut, i)
    ensures n in g && right !in g && g[n].parent != null && g[n].parent in g && g[n].parent != n
    ensures i < |g[g[n].parent].children| == |g[g[n].parent].keys| + 1 && g[g[n].parent].children[i] == n
    ensures var p: BPlusNode, g' := g[n].parent, Split(g, n, right, cut, i);
            var v := g[p];
            && g'.Keys == g.Keys + {right} && g'[n] == cut.left && g'[right] == cut.right
            && g'[p] == v.(keys := v.keys[..i] + [cut.key] + v.keys[i..],
                           children := v.children[..i + 1] + [right] + v.children[i + 1..])
            && forall m | m in g && m != n && m != p ::
                 g'[m] == if m in cut.right.children then g[m].(parent := right) else g[m]
  {
    assert NodeOk(g, g[n].parent);
    assert g[g[n].parent].height > g[n].height;
  }

  lemma HalfLevels(g: Graph, n: BPlusNode, right: BPlusNode, cut: Cut, i: nat)
    requires CanSplit(g, n, right, cut, i)
    ensures cut.left.height == cut.right.height == g[n].height
    ensures forall c | c in cut.left.children + cut.right.children :: c in g && g[c].height == g[n].height - 1
    ensures g[n].content == cut.left.content + cut.right.content
  {
    if !g[n].isLeaf {
      forall c | c in g[n].children ensures c in g && g[c].height == g[n].height - 1 {
        var j :| 0 <= j < |g[n].children| && c == g[n].children[j];
      }
    }
  }

  lemma SplitLeftKids(g: Graph, n: BPlusNode, right: BPlusNode, cut: Cut, i: nat)
    requires CanSplit(g, n, right, cut, i)
    ensures var g' := Split(g, n, right, cut, i);
            ChildrenOk(g', n) && Parts(g', cut.left.children) == Parts(g, cut.left.children)
  {
    hide Split, NodeOk, CutOk;
    SplitViews(g, n, right, cut, i);
    var g', kids := Split(g, n, right, cut, i), cut.left.children;
    CutKids(g, n, right, cut, i);
    HalfLevels(g, n, right, cut, i);
    forall j | 0 <= j < |kids| ensures g'[kids[j]] == g[kids[j]] {
      assert kids[j] in kids && kids[j] in kids + cut.right.children;
    }
  }

  lemma SplitLeft(g: Graph, n: BPlusNode, right: BPlusNode, cut: Cut, i: nat)
    requires CanSplit(g, n, right, cut, i)
    ensures NodeOk(Split(g, n, right, cut, i), n)
  {
    SplitLeftKids(g, n, right, cut, i);
    SortedPieces(cut.left.content, cut.right.content);
    assert Split(g, n, right, cut, i)[g[n].parent].children[i] == n;
  }

  lemma SortedPieces(a: seq<IndexRecord>, b: seq<IndexRecord>)
    requires Sorted(a + b)
    ensures Sorted(a) && Sorted(b)
  {
    SortedAround([], a, b);
    assert [] + a + b == a + b;
    forall i, j | 0 <= i < j < |b| ensures b[i].key <= b[j].key {
      assert (a + b)[|a| + i] == b[i] && (a + b)[|a| + j] == b[j];
    }
  }

  lemma SplitRightKids(g: Graph, n: BPlusNode, right: BPlusNode, cut: Cut, i: nat)
    requires CanSplit(g, n, right, cut, i)
    ensures var g' := Split(g, n, right, cut, i);
            ChildrenOk(g', right) && Parts(g', cut.right.children) == Parts(g, cut.right.children)
  {
    hide Split, NodeOk, CutOk;
    SplitViews(g, n, right, cut, i);
    var g', kids := Split(g, n, right, cut, i), cut.right.children;
    CutKids(g, n, right, cut, i);
    HalfLevels(g, n, right, cut, i);
    forall j | 0 <= j < |kids| ensures g'[kids[j]] == g[kids[j]].(parent := right) {
      assert kids[j] in kids && kids[j] in cut.left.children + kids;
    }
  }

  lemma SplitRight(g: Graph, n: BPlusNode, right: BPlusNode, cut: Cut, i: nat)
    requires CanSplit(g, n, right, cut, i)
    ensures NodeOk(Split(g, n, right, cut, i), right)
  {
    SplitRightKids(g, n, right, cut, i);
    SortedPieces(cut.left.content, cut.right.content);
    assert Split(g, n, right, cut, i)[g[n].parent].children[i + 1] == right;
  }

  lemma SeparatedSplit(keys: seq<int>, parts: seq<seq<IndexRecord>>, i: nat, l: seq<IndexRecord>, r: seq<IndexRecord>)
    requires Separated(keys, parts) && i < |parts| && parts[i] == l + r && l != [] && r != []
    ensures Separated(keys[..i] + [r[0].key] + keys[i..], parts[..i] + [l, r] + parts[i + 1..])
  {
    var keys' := keys[..i] + [r[0].key] + keys[i..];
    var parts': seq<seq<IndexRecord>> := parts[..i] + [l, r] + parts[i + 1..];
    assert |parts'| == |keys'| + 1;
    forall j | 0 <= j < |keys'| ensures parts'[j + 1] != [] && keys'[j] == parts'[j + 1][0].key {
      if j < i {
        SeparatedAt(keys, parts, j);
        assert parts'[j + 1] == if j + 1 == i then l else parts[j + 1];
      } else if j == i {
        assert parts'[j + 1] == r;
      } else {
        SeparatedAt(keys, parts, j - 1);
        assert keys'[j] == keys[j - 1] && parts'[j + 1] == parts[j];
      }
    }
    assert Separated(keys', parts');
  }

  /** Cutting part `i` in two changes neither the concatenation nor the meaning of the separators. */
  lemma PartsSplit(keys: seq<int>, parts: seq<seq<IndexRecord>>, i: nat, l: seq<IndexRecord>, r: seq<IndexRecord>)
    requires Separated(keys, parts) && i < |parts| && parts[i] == l + r && l != [] && r != []
    ensures var parts' := parts[..i] + [l, r] + parts[i + 1..];
            Flat(parts') == Flat(parts) && Separated(keys[..i] + [r[0].key] + keys[i..], parts')
  {
    SeparatedSplit(keys, parts, i, l, r);
    FlatAt(parts, i);
    FlatAppend(parts[..i] + [l, r], parts[i + 1..]);
    FlatAppend(parts[..i], [l, r]);
    FlatPair(l, r);
  }

  lemma FlatPair<T>(l: seq<T>, r: seq<T>)
    ensures Flat([l, r]) == l + r
  {
    assert [l, r] == [l] + [r];
    FlatAppend([l], [r]);
    assert Flat([l]) == l && Flat([r]) == r;
  }

  lemma ParentKids(g: Graph, n: BPlusNode, right: BPlusNode, cut: Cut, i: nat)
    requires CanSplit(g, n, right, cut, i)
    ensures Distinct(g[g[n].parent].children) && g[n].parent !in g[g[n].parent].children
    ensures forall c | c in g[g[n].parent].children ::
              c in g && g[c].parent == g[n].parent && g[c].height == g[g[n].parent].height - 1
  {
    var p: BPlusNode := g[n].parent;
    forall c | c in g[p].children ensures c in g && g[c].parent == p && g[c].height == g[p].height - 1 {
      var j :| 0 <= j < |g[p].children| && c == g[p].children[j];
    }
  }

  lemma SplitParts(g: Graph, n: BPlusNode, right: BPlusNode, cut: Cut, i: nat)
    requires CanSplit(g, n, right, cut, i)
    ensures var p: BPlusNode, g' := g[n].parent, Split(g, n, right, cut, i);
            var parts := Parts(g, g[p].children);
            Parts(g', g'[p].children) == parts[..i] + [cut.left.content, cut.right.content] + parts[i + 1..]
  {
    hide Split, NodeOk, CutOk;
    SplitViews(g, n, right, cut, i);
    ParentKids(g, n, right, cut, i);
    HalfLevels(g, n, right, cut, i);
    var p: BPlusNode, g' := g[n].parent, Split(g, n, right, cut, i);
    var kids, kids' := g[p].children, g'[p].children;
    CutKids(g, n, right, cut, i);
    forall j | 0 <= j < |kids| && j != i ensures ContentOf(g', kids[j]) == ContentOf(g, kids[j]) {
      assert kids[j] in kids && kids[j] != n;
    }
    assert kids' == kids[..i] + [n, right] + kids[i + 1..];
  }

  lemma SplitParent(g: Graph, n: BPlusNode, right: BPlusNode, cut: Cut, i: nat)
    requires CanSplit(g, n, right, cut, i)
    ensures NodeOk(Split(g, n, right, cut, i), g[n].parent)
  {
    var p: BPlusNode, g' := g[n].parent, Split(g, n, right, cut, i);
    SplitParentKids(g, n, right, cut, i);
    SplitParts(g, n, right, cut, i);
    var parts := Parts(g, g[p].children);
    assert parts[i] == cut.left.content + cut.right.content;
    PartsSplit(g[p].keys, parts, i, cut.left.content, cut.right.content);
    SplitLink(g, n, right, cut, i, p);
  }

  lemma SplitParentKids(g: Graph, n: BPlusNode, right: BPlusNode, cut: Cut, i: nat)
    requires CanSplit(g, n, right, cut, i)
    ensures ChildrenOk(Split(g, n, right, cut, i), g[n].parent)
  {
    hide Split, NodeOk, CutOk;
    SplitViews(g, n, right, cut, i);
    ParentKids(g, n, right, cut, i);
    HalfLevels(g, n, right, cut, i);
    CutKids(g, n, right, cut, i);
    var p: BPlusNode, g' := g[n].parent, Split(g, n, right, cut, i);
    DistinctInsert(g[p].children, i + 1, right);
    InsertMembers(g[p].children, i + 1, right);
    HalfParents(g, n, right, cut, i);
  }

  lemma HalfParents(g: Graph, n: BPlusNode, right: BPlusNode, cut: Cut, i: nat)
    requires CanSplit(g, n, right, cut, i)
    ensures cut.left.parent == cut.right.parent == g[n].parent
  {
  }

  lemma InsertMembers<T>(s: seq<T>, i: nat, x: T)
    requires i <= |s|
    ensures forall j {:trigger (s[..i] + [x] + s[i..])[j]} | 0 <= j < |s[..i] + [x] + s[i..]| ::
              (s[..i] + [x] + s[i..])[j] == x || (s[..i] + [x] + s[i..])[j] in s
  {
  }

  lemma DistinctInsert<T>(s: seq<T>, i: nat, x: T)
    requires Distinct(s) && i <= |s| && x !in s
    ensures Distinct(s[..i] + [x] + s[i..])
  {
  }

  lemma MemberInsert<T>(s: seq<T>, i: nat, x: T)
    requires i <= |s|
    ensures forall c | c in s :: c in s[..i] + [x] + s[i..]
  {
    assert s == s[..i] + s[i..];
  }

  lemma HalvesHold(g: Graph, n: BPlusNode, right: BPlusNode, cut: Cut, i: nat)
    requires CanSplit(g, n, right, cut, i)
    ensures cut.left.content != [] && cut.right.content != []
    ensures cut.left.isLeaf == cut.right.isLeaf == g[n].isLeaf && !g[g[n].parent].isLeaf
    ensures g[n].children == cut.left.children + cut.right.children
  {
    assert NodeOk(g, n);
  }

  /** The link from any old node to its parent survives. */
  lemma SplitLink(g: Graph, n: BPlusNode, right: BPlusNode, cut: Cut, i: nat, m: BPlusNode)
    requires CanSplit(g, n, right, cut, i) && m in g && LinkOk(g, m)
    ensures LinkOk(Split(g, n, right, cut, i), m)
  {
    hide Split, NodeOk, CutOk;
    SplitViews(g, n, right, cut, i);
    HalfParents(g, n, right, cut, i);
    HalvesHold(g, n, right, cut, i);
    CutKids(g, n, right, cut, i);
    MemberInsert(g[g[n].parent].children, i + 1, right);
    if g[m].parent == n {
      assert m in cut.left.children + cut.right.children;
    }
  }

  lemma SplitOther(g: Graph, n: BPlusNode, right: BPlusNode, cut: Cut, i: nat, m: BPlusNode)
    requires CanSplit(g, n, right, cut, i) && m in g && m != n && m != g[n].parent
    ensures NodeOk(Split(g, n, right, cut, i), m)
  {
    var g', kids := Split(g, n, right, cut, i), g[m].children;
    assert NodeOk(g, m);
    SplitLink(g, n, right, cut, i, m);
    if !g[m].isLeaf {
      CutKids(g, n, right, cut, i);
      forall j | 0 <= j < |kids|
        ensures g'[kids[j]].parent == m && g'[kids[j]].height == g[kids[j]].height
                && g'[kids[j]].content == g[kids[j]].content
      {
        assert kids[j] != n && kids[j] != right && kids[j] !in cut.right.children;
      }
      assert Parts(g', kids) == Parts(g, kids);
    }
  }

  /** After a split every node is in order, and every old node other than `n` holds what it held. */
  lemma SplitNodes(g: Graph, n: BPlusNode, right: BPlusNode, cut: Cut, i: nat)
    requires CanSplit(g, n, right, cut, i)
    ensures AllOk(Split(g, n, right, cut, i))
  {
    forall m | m in Split(g, n, right, cut, i) ensures NodeOk(Split(g, n, right, cut, i), m) {
      if m == n {
        SplitLeft(g, n, right, cut, i);
      } else if m == right {
        SplitRight(g, n, right, cut, i);
      } else if m == g[n].parent {
        SplitParent(g, n, right, cut, i);
      } else {
        SplitOther(g, n, right, cut, i, m);
      }
    }
  }

  /** Both halves are full enough, and not too full. */
  ghost predicate CutFillOk(order: nat, cut: Cut)
  {
    && (if cut.left.isLeaf then (order + 1) / 2 else order / 2) <= |cut.left.keys| <= order
    && (if cut.right.isLeaf then (order + 1) / 2 else order / 2) <= |cut.right.keys| <= order
  }

  lemma SplitFill(order: nat, g: Graph, root: BPlusNode, n: BPlusNode, right: BPlusNode, cut: Cut, i: nat, m: BPlusNode)
    requires Shaped(order, g, root, n) && CanSplit(g, n, right, cut, i) && CutFillOk(order, cut)
    requires m in g || m == right
    ensures var g', p: BPlusNode := Split(g, n, right, cut, i), g[n].parent;
            (g'[m].parent == null ==> m == root)
            && FillOk(order, g'[m], m == if |g[p].keys| + 1 > order then p else null)
  {
    var g', p: BPlusNode := Split(g, n, right, cut, i), g[n].parent;
    assert NodeOk(g, p);
    if m == p {
      assert p != n by {
        assert NodeOk(g, n);
      }
      assert g'[p].parent == g[p].parent by {
        CutKids(g, n, right, cut, i);
      }
      assert |g'[p].keys| == |g[p].keys| + 1;
    } else if m == n {
      assert g'[m] == cut.left;
    } else if m == right {
      assert g'[m] == cut.right;
    } else {
      assert NodeOk(g, m);
      assert g'[m] == g[m] || g'[m] == g[m].(parent := right);
      assert g'[m] != g[m] ==> g[m].parent == n by {
        CutKids(g, n, right, cut, i);
      }
    }
  }

  /** Splitting the overfull node keeps the tree's shape; the parent may now be overfull instead. */
  lemma SplitKeepsShape(order: nat, g: Graph, root: BPlusNode, n: BPlusNode, right: BPlusNode, cut: Cut, i: nat)
    requires Shaped(order, g, root, n) && CanSplit(g, n, right, cut, i) && CutFillOk(order, cut)
    ensures var g', p := Split(g, n, right, cut, i), g[n].parent;
            Shaped(order, g', root, if |g[p].keys| + 1 > order then p else null)
  {
    var g', p := Split(g, n, right, cut, i), g[n].parent;
    var over: BPlusNode? := if |g[p].keys| + 1 > order then p else null;
    assert root in g' && g'[root].parent == null by {
      CutKids(g, n, right, cut, i);
    }
    SplitNodes(g, n, right, cut, i);
    hide Split, CutFillOk, FillOk, NodeOk;
    forall m | m in g'
      ensures NodeOk(g', m) && (g'[m].parent == null ==> m == root) && FillOk(order, g'[m], m == over)
    {
      SplitFill(order, g, root, n, right, cut, i, m);
    }
  }

  /** ... and what the tree holds; only a root that was just raised had no key before. */
  lemma SplitKeepsRoot(order: nat, g: Graph, root: BPlusNode, n: BPlusNode, right: BPlusNode, cut: Cut, i: nat)
    requires Shaped(order, g, root, n) && CanSplit(g, n, right, cut, i)
    ensures Split(g, n, right, cut, i)[root].content == g[root].content
    ensures g[root].keys != [] || g[n].parent == root ==> Split(g, n, right, cut, i)[root].keys != []
  {
    CutKids(g, n, right, cut, i);
  }

  /** A new root above the old one, which is its only child until the old root's right half joins it. */
  function Raise(g: Graph, root: BPlusNode, newRoot: BPlusNode): Graph
    requires root in g
  {
    g[root := g[root].(parent := newRoot)]
     [newRoot := NodeView([], [root], null, [], false, g[root].content, g[root].height + 1)]
  }

  lemma RaiseKeepsShape(order: nat, g: Graph, root: BPlusNode, newRoot: BPlusNode)
    requires Shaped(order, g, root, root) && newRoot !in g && g[root].content != []
    ensures Shaped(order, Raise(g, root, newRoot), newRoot, root)
  {
    var g' := Raise(g, root, newRoot);
    assert NodeOk(g, root);
    assert Parts(g', [root]) == [g[root].content];
    assert Flat([g[root].content]) == g[root].content;
    forall m | m in g'
      ensures NodeOk(g', m) && (g'[m].parent == null ==> m == newRoot) && FillOk(order, g'[m], m == root)
    {
      if m in g {
        assert NodeOk(g, m);
        RaiseNode(g, root, newRoot, m);
      }
    }
  }

  lemma RaiseNode(g: Graph, root: BPlusNode, newRoot: BPlusNode, m: BPlusNode)
    requires root in g && g[root].parent == null && newRoot !in g && g[root].content != []
    requires m in g && NodeOk(g, m)
    ensures NodeOk(Raise(g, root, newRoot), m)
  {
    var g', kids := Raise(g, root, newRoot), g[m].children;
    if !g[m].isLeaf {
      forall j | 0 <= j < |kids| ensures g'[kids[j]] == g[kids[j]] {
        assert kids[j] != root && kids[j] != newRoot;
      }
      assert Parts(g', kids) == Parts(g, kids);
    }
  }

  // ---- A split as the code does it: cut, then hook in -------------------------------------

  /** `n` was cut: its right half is in memory, but no node's child yet. */
  function CutNode(g: Graph, n: BPlusNode, right: BPlusNode, cut: Cut): (g': Graph)
    ensures g'.Keys == g.Keys + {n, right}
  {
    Reparent(g, cut.right.children, right)[n := cut.left][right := cut.right]
  }

  function PutHalves(g: Graph, n: BPlusNode, right: BPlusNode, cut: Cut): (g': Graph)
    ensures g'.Keys == g.Keys + {n, right}
  {
    g[n := cut.left][right := cut.right]
  }

  /** A leaf has no children to pass on. */
  lemma CutNodeOfLeaf(g: Graph, n: BPlusNode, right: BPlusNode, cut: Cut)
    requires cut.right.children == []
    ensures CutNode(g, n, right, cut) == PutHalves(g, n, right, cut)
  {
    assert Reparent(g, [], right) == g;
  }

  lemma CutNodeOfInner(g: Graph, n: BPlusNode, right: BPlusNode, cut: Cut)
    requires n !in cut.right.children && right !in cut.right.children
    ensures CutNode(g, n, right, cut) == Reparent(PutHalves(g, n, right, cut), cut.right.children, right)
  {
  }

  /** The children of an inner node are other nodes of the tree. */
  lemma KidsOf(g: Graph, n: BPlusNode)
    requires AllOk(g) && n in g && !g[n].isLeaf
    ensures g[n].records == [] && forall c | c in g[n].children :: c in g && c != n
  {
    assert NodeOk(g, n);
    forall c | c in g[n].children ensures c in g && c != n {
      var j :| 0 <= j < |g[n].children| && g[n].children[j] == c;
    }
  }

  /** `right` became a child of `p`, behind child `i`. */
  function Hooked(g: Graph, p: BPlusNode, i: nat, key: int, right: BPlusNode): Graph
    requires p in g && i <= |g[p].keys| && i < |g[p].children|
  {
    g[p := g[p].(keys := g[p].keys[..i] + [key] + g[p].keys[i..],
                 children := g[p].children[..i + 1] + [right] + g[p].children[i + 1..])]
  }

  lemma SplitIsHooked(g: Graph, n: BPlusNode, right: BPlusNode, cut: Cut, i: nat)
    requires CanSplit(g, n, right, cut, i)
    ensures var p: BPlusNode, g1 := g[n].parent, CutNode(g, n, right, cut);
            g1[p] == g[p] && Split(g, n, right, cut, i) == Hooked(g1, p, i, cut.key, right)
  {
    CutKids(g, n, right, cut, i);
  }

  /** The old root `n` and `right` became the children of a new root. */
  function Grown(g: Graph, n: BPlusNode, right: BPlusNode, newRoot: BPlusNode, key: int, v: NodeView): Graph
    requires n in g && right in g
  {
    g[n := g[n].(parent := newRoot)][right := g[right].(parent := newRoot)]
     [newRoot := NodeView([key], [n, right], null, [], false, v.content, v.height + 1)]
  }

  function WithParent(cut: Cut, p: BPlusNode): Cut
  {
    Cut(cut.left.(parent := p), cut.right.(parent := p), cut.key)
  }

  lemma SplitIsGrown(g: Graph, n: BPlusNode, right: BPlusNode, newRoot: BPlusNode, cut: Cut)
    requires n in g && right !in g && newRoot !in g && newRoot != right
    requires n !in cut.right.children && newRoot !in cut.right.children
    ensures Split(Raise(g, n, newRoot), n, right, WithParent(cut, newRoot), 0)
            == Grown(CutNode(g, n, right, cut), n, right, newRoot, cut.key, g[n])
  {
    var v := NodeView([], [n], null, [], false, g[n].content, g[n].height + 1);
    assert v.keys[..0] + [cut.key] + v.keys[0..] == [cut.key];
    assert v.children[..1] + [right] + v.children[1..] == [n, right];
  }

  // ---- The two kinds of split -------------------------------------------------------------

  /** `n` is the overfull node and `right` is new. */
  ghost predicate Ready(order: nat, g: Graph, root: BPlusNode, n: BPlusNode, right: BPlusNode)
  {
    TreeOk(order, g, root, n) && n in g && right !in g
  }

  /** In `g'`, which holds what `g` held, only `over` may be overfull. */
  ghost predicate SplitDone(order: nat, g: Graph, root: BPlusNode, g': Graph, root': BPlusNode, over: BPlusNode?)
    requires root in g
  {
    TreeOk(order, g', root', over) && g'[root'].content == g[root].content
  }

  ghost predicate IsChild(g: Graph, n: BPlusNode, i: nat)
  {
    n in g && g[n].parent != null && g[n].parent in g &&
    i < |g[g[n].parent].children| && i <= |g[g[n].parent].keys| && g[g[n].parent].children[i] == n
  }

  lemma SplitBelowParent(order: nat, g: Graph, root: BPlusNode, n: BPlusNode, right: BPlusNode, cut: Cut, i: nat)
    requires Ready(order, g, root, n, right) && IsChild(g, n, i)
    requires NodeOk(g, n) && CutOk(g, g[n], cut) && CutFillOk(order, cut)
    ensures var p: BPlusNode, g1 := g[n].parent, CutNode(g, n, right, cut);
            && g1[p] == g[p]
            && SplitDone(order, g, root, Hooked(g1, p, i, cut.key, right), root,
                         if |g[p].keys| + 1 > order then p else null)
  {
    assert NodeOk(g, g[n].parent);
    SplitKeepsShape(order, g, root, n, right, cut, i);
    SplitKeepsRoot(order, g, root, n, right, cut, i);
    SplitIsHooked(g, n, right, cut, i);
  }

  lemma SplitAtRoot(order: nat, g: Graph, n: BPlusNode, right: BPlusNode, newRoot: BPlusNode, cut: Cut)
    requires Ready(order, g, n, n, right) && newRoot !in g && newRoot != right
    requires NodeOk(g, n) && CutOk(g, g[n], cut) && CutFillOk(order, cut)
    ensures SplitDone(order, g, n, Grown(CutNode(g, n, right, cut), n, right, newRoot, cut.key, g[n]), newRoot, null)
  {
    var g0, cut' := Raise(g, n, newRoot), WithParent(cut, newRoot);
    RaiseKeepsShape(order, g, n, newRoot);
    assert NodeOk(g0, n) && NodeOk(g0, newRoot);
    RaiseKeepsCut(g, n, newRoot, cut);
    SplitKeepsShape(order, g0, newRoot, n, right, cut', 0);
    SplitKeepsRoot(order, g0, newRoot, n, right, cut', 0);
    RootKids(g, n, cut, newRoot);
    SplitIsGrown(g, n, right, newRoot, cut);
  }

  /** Neither the old root nor a new one is a child of the old root. */
  lemma RootKids(g: Graph, n: BPlusNode, cut: Cut, newRoot: BPlusNode)
    requires n in g && g[n].parent == null && NodeOk(g, n) && newRoot !in g && CutOk(g, g[n], cut)
    ensures forall c | c in g[n].children :: c in g && c != n && c != newRoot
    ensures n !in cut.right.children && newRoot !in cut.right.children
  {
    forall c | c in g[n].children ensures c in g && c != n && c != newRoot {
      var j :| 0 <= j < |g[n].children| && g[n].children[j] == c;
    }
    assert forall c | c in cut.right.children :: c in g[n].children;
  }

  lemma RaiseKeepsCut(g: Graph, n: BPlusNode, newRoot: BPlusNode, cut: Cut)
    requires n in g && g[n].parent == null && NodeOk(g, n) && newRoot !in g && CutOk(g, g[n], cut)
    ensures CutOk(Raise(g, n, newRoot), Raise(g, n, newRoot)[n], WithParent(cut, newRoot))
  {
    var g0, l, r := Raise(g, n, newRoot), cut.left.children, cut.right.children;
    RootKids(g, n, cut, newRoot);
    forall c | c in l + r ensures c in g[n].children {
    }
    forall j | 0 <= j < |l| ensures ContentOf(g0, l[j]) == ContentOf(g, l[j]) {
      assert l[j] in l + r;
    }
    forall j | 0 <= j < |r| ensures ContentOf(g0, r[j]) == ContentOf(g, r[j]) {
      assert r[j] in l + r;
    }
    assert Parts(g0, l) == Parts(g, l) && Parts(g0, r) == Parts(g, r);
  }

  lemma LeafCutFits(order: nat, g: Graph, root: BPlusNode, n: BPlusNode)
    requires TreeOk(order, g, root, n) && n in g && g[n].isLeaf
    ensures LeafOk(g[n]) && |g[n].keys| == order + 1
    ensures var cut := LeafCut(g[n], (order + 1) / 2); CutOk(g, g[n], cut) && CutFillOk(order, cut)
  {
    assert NodeOk(g, n);
    LeafCutOk(g, n, (order + 1) / 2);
  }

  lemma OverfullLeaf(order: nat, g: Graph, root: BPlusNode, n: BPlusNode)
    requires TreeOk(order, g, root, n) && n in g && g[n].isLeaf
    ensures LeafOk(g[n]) && |g[n].keys| == order + 1
  {
    assert NodeOk(g, n);
  }

  lemma OverfullInner(order: nat, g: Graph, root: BPlusNode, n: BPlusNode)
    requires TreeOk(order, g, root, n) && n in g && !g[n].isLeaf
    ensures |g[n].keys| == order + 1 && |g[n].children| == |g[n].keys| + 1
  {
    assert NodeOk(g, n);
  }

  lemma InnerCutFits(order: nat, g: Graph, root: BPlusNode, n: BPlusNode)
    requires TreeOk(order, g, root, n) && n in g && !g[n].isLeaf
    ensures |g[n].keys| == order + 1 && |g[n].children| == |g[n].keys| + 1
    ensures var cut := InnerCut(g, g[n], order / 2); CutOk(g, g[n], cut) && CutFillOk(order, cut)
  {
    assert NodeOk(g, n);
    InnerCutOk(g, n, order / 2);
  }

  /** The nodes on higher levels than `n`: what a split cascade has left to climb. */
  ghost function Above(g: Graph, n: BPlusNode): set<BPlusNode>
    requires n in g
  {
    set m | m in g && g[m].height > g[n].height
  }

  lemma CascadeClimbs(g: Graph, n: BPlusNode, right: BPlusNode, cut: Cut, i: nat)
    requires IsChild(g, n, i) && AllOk(g) && NodeOk(g, n) && NodeOk(g, g[n].parent) && right !in g
             && CutOk(g, g[n], cut)
    ensures var g' := Split(g, n, right, cut, i); g[n].parent in g' && Above(g', g[n].parent) < Above(g, n)
  {
    var g', p: BPlusNode := Split(g, n, right, cut, i), g[n].parent;
    CutKids(g, n, right, cut, i);
    assert p in Above(g, n) && p !in Above(g', p);
  }

  /** What hooking the right half of `n` in below its parent comes to. */
  lemma BelowParent(order: nat, g: Graph, root: BPlusNode, n: BPlusNode, right: BPlusNode, cut: Cut, i: nat)
    requires Ready(order, g, root, n, right) && IsChild(g, n, i) && CutOk(g, g[n], cut) && CutFillOk(order, cut)
    ensures var p: BPlusNode, g1 := g[n].parent, CutNode(g, n, right, cut);
            && g1[p] == g[p] && !g[p].isLeaf
            && var g' := Hooked(g1, p, i, cut.key, right);
               && TreeOk(order, g', root, if |g[p].keys| + 1 > order then p else null)
               && g'[root].content == g[root].content
               && Above(g', p) < Above(g, n)
  {
    assert NodeOk(g, n);
    assert NodeOk(g, g[n].parent);
    SplitBelowParent(order, g, root, n, right, cut, i);
    CascadeClimbs(g, n, right, cut, i);
    SplitIsHooked(g, n, right, cut, i);
  }
}
