// The B+ tree that indexes a table by its key.
module BPlusTrees {
  import opened Wrappers
  import opened BPlusGraph
  import opened BPlusSplit

  /** `g` is a true picture of the nodes in memory. */
  ghost predicate Shows(g: Graph)
    reads g.Keys
  {
    forall n {:trigger n.Is(g[n])} | n in g :: n.Is(g[n])
  }

  class BPlusTree {
    const order: nat
    var root: BPlusNode?
    /** The nodes of the tree, and what each of them looks like. */
    ghost var g: Graph

    /** The tree is in order, but for one node that may hold a key too many. */
    ghost predicate Holds(over: BPlusNode?)
      reads this, g.Keys
    {
      Shows(g) && 1 <= order && if root == null then g == map[] else TreeOk(order, g, root, over)
    }

    ghost predicate Valid()
      reads this, g.Keys
    {
      Holds(null)
    }

    /** The nodes that joined the tree were allocated meanwhile. */
    twostate predicate OnlyNew(g0: Graph)
      reads this
    {
      forall n | n in g && n !in g0 :: fresh(n)
    }

    /** The records of the leaves, from left to right. */
    ghost function Contents(): seq<IndexRecord>
      reads this
    {
      if root == null then [] else ContentOf(g, root)
    }

    constructor (order: nat)
      requires 1 <= order
      ensures Valid() && Contents() == [] && g == map[] && this.order == order
    {
      this.order := order;
      root := null;
      g := map[];
    }

    method Clear()
      modifies this
      ensures order >= 1 ==> Valid()
      ensures Contents() == [] && g == map[]
    {
      root := null;
      g := map[];
    }

    method FindLeaf(key: int) returns (leaf: BPlusNode?)
      requires Valid()
      ensures leaf == null <==> root == null
      ensures leaf != null ==> leaf == LeafFor(g, root, key)
    {
      if root == null {
        return null;
      }
      var current: BPlusNode := root;
      assert current.Is(g[current]);
      while !current.isLeaf
        invariant current in g && current.Is(g[current]) && LeafFor(g, current, key) == LeafFor(g, root, key)
        decreases g[current].height
      {
        assert NodeOk(g, current);
        var i := 0;
        while i < |current.keys| && key >= current.keys[i]
          invariant i <= |current.keys|
          invariant forall j | 0 <= j < i :: current.keys[j] <= key
        {
          i := i + 1;
        }
        RouteIs(current.keys, key, i);
        current := current.children[i];
        assert current.Is(g[current]);
      }
      leaf := current;
    }

    /** Finds a record inserted under `key` if and only if there is one. */
    method Search(key: int) returns (found: Option<IndexRecord>)
      requires Valid()
      ensures found.Some? <==> HasKey(Contents(), key)
      ensures found.Some? ==> found.value in Contents() && found.value.key == key
    {
      var leaf := FindLeaf(key);
      if leaf == null {
        return None;
      }
      assert leaf.Is(g[leaf]);
      LeafDecides(g, root, key);
      var i := 0;
      while i < |leaf.records|
        invariant i <= |leaf.records|
        invariant forall j | 0 <= j < i :: leaf.records[j].key != key
      {
        if leaf.records[i].key == key {
          return Some(leaf.records[i]);
        }
        i := i + 1;
      }
      return None;
    }
  
    /** The place of `node` among the children of `parent`. */
    method ChildIndex(parent: BPlusNode, node: BPlusNode) returns (index: nat)
      requires node in parent.children
      ensures index < |parent.children| && parent.children[index] == node
    {
      index := 0;
      while parent.children[index] != node
        invariant index < |parent.children| && node in parent.children[index..]
        decreases |parent.children| - index
      {
        index := index + 1;
      }
    }

    /** Puts a new root above the old one and its right half. */
    method GrowRoot(right: BPlusNode, promotedKey: int, ghost v: NodeView)
      requires root != null && root in g && right in g && root != right && Shows(g)
      modifies this`root, this`g, root`parent, right`parent
      ensures root != null && fresh(root) && g == Grown(old(g), old(root), right, root, promotedKey, v) && Shows(g)
    {
      assert root.Is(g[root]) && right.Is(g[right]);
      var newRoot := new BPlusNode(false, null, [promotedKey], [], [root, right]);
      ghost var g0 := g;
      g := Grown(g, root, right, newRoot, promotedKey, v);
      root.parent := newRoot;
      right.parent := newRoot;
      forall n {:trigger n.Is(g[n])} | n in g ensures n.Is(g[n]) {
        assert n in g0 ==> old(n.Is(g[n]));
      }
      root := newRoot;
    }

    /** Puts `right` behind child `index` of `parent`. */
    method Hook(parent: BPlusNode, index: nat, promotedKey: int, right: BPlusNode)
      requires Shows(g) && parent in g && index <= |g[parent].keys| && index < |g[parent].children|
      modifies this`g, parent`keys, parent`children
      ensures g == Hooked(old(g), parent, index, promotedKey, right) && Shows(g)
      ensures |g[parent].keys| == |old(g)[parent].keys| + 1 && g[parent].isLeaf == old(g)[parent].isLeaf
    {
      assert parent.Is(g[parent]);
      parent.keys := parent.keys[..index] + [promotedKey] + parent.keys[index..];
      parent.children := parent.children[..index + 1] + [right] + parent.children[index + 1..];
      forall n {:trigger n.Is(g[n])} | n in g && n != parent ensures n.Is(g[n]) {
        assert old(n.Is(g[n]));
      }
      g := Hooked(g, parent, index, promotedKey, right);
    }

    /** `right` holds what was just cut off `node`, and still has to be hooked into the tree `g0` was. */
    ghost predicate Cutting(g0: Graph, node: BPlusNode, right: BPlusNode, cut: Cut)
      reads this, g.Keys
    {
      && root != null && Ready(order, g0, root, node, right) && CutOk(g0, g0[node], cut) && CutFillOk(order, cut)
      && g == CutNode(g0, node, right, cut) && Shows(g)
    }

    lemma Linked(node: BPlusNode)
      requires root != null && Holds(node) && node in g && g[node].parent != null
      ensures node in g[node].parent.children
    {
      assert NodeOk(g, node);
      assert g[node].parent.Is(g[g[node].parent]);
    }

    lemma FoundChild(node: BPlusNode, parent: BPlusNode?, index: nat)
      requires root != null && Holds(node) && node in g && parent == g[node].parent
      requires parent != null ==> index < |parent.children| && parent.children[index] == node
      ensures (parent != null ==> IsChild(g, node, index))
    {
      assert NodeOk(g, node);
      if parent != null {
        assert parent.Is(g[parent]) && NodeOk(g, parent);
      }
    }

    /** Moves the upper part of `leaf` to a new node. */
    method MoveRecords(leaf: BPlusNode, middle: nat) returns (right: BPlusNode)
      requires Shows(g) && leaf in g && g[leaf].isLeaf && LeafOk(g[leaf]) && middle < |g[leaf].keys|
      modifies this`g, leaf`keys, leaf`records
      ensures fresh(right) && g == PutHalves(old(g), leaf, right, LeafCut(old(g)[leaf], middle)) && Shows(g)
    {
      assert leaf.Is(g[leaf]);
      right := new BPlusNode(true, leaf.parent, leaf.keys[middle..], leaf.records[middle..], []);
      leaf.keys := leaf.keys[..middle];
      leaf.records := leaf.records[..middle];
      forall n {:trigger n.Is(g[n])} | n in g && n != leaf ensures n.Is(g[n]) {
        assert old(n.Is(g[n]));
      }
      g := PutHalves(g, leaf, right, LeafCut(g[leaf], middle));
    }

    method CutLeaf(leaf: BPlusNode, ghost cut: Cut) returns (right: BPlusNode, promotedKey: int)
      requires Holds(leaf) && root != null && leaf in g && g[leaf].isLeaf
      requires LeafOk(g[leaf]) && (order + 1) / 2 < |g[leaf].keys| && cut == LeafCut(g[leaf], (order + 1) / 2)
      modifies this`g, leaf`keys, leaf`records
      ensures fresh(right) && Cutting(old(g), leaf, right, cut)
      ensures g.Keys == old(g).Keys + {right} && promotedKey == cut.key
    {
      LeafCutFits(order, g, root, leaf);
      ghost var g0 := g;
      right := MoveRecords(leaf, (order + 1) / 2);
      CutNodeOfLeaf(g0, leaf, right, cut);
      assert right.Is(g[right]);
      promotedKey := right.keys[0];
    }

    /** Cuts the overfull `leaf` in two and hooks the new right half in next to it. */
    method SplitLeaf(leaf: BPlusNode, parent: BPlusNode?, index: nat)
      requires Holds(leaf) && root != null && leaf in g && g[leaf].isLeaf && parent == g[leaf].parent
      requires parent != null ==> index < |parent.children| && parent.children[index] == leaf
      modifies this`root, this`g, g.Keys
      ensures Valid() && root != null && OnlyNew(old(g)) && Contents() == old(Contents())
    {
      ghost var g0 := g;
      FoundChild(leaf, parent, index);
      OverfullLeaf(order, g, root, leaf);
      ghost var cut := LeafCut(g[leaf], (order + 1) / 2);
      var right, promotedKey := CutLeaf(leaf, cut);
      ghost var g1 := g;
      HookRight(leaf, parent, index, promotedKey, right, g0, cut);
      forall n | n in g && n !in g0 ensures fresh(n) {
        assert n in g1 ==> n == right;
      }
    }

    /** The children of `right` point back at it. */
    method Adopt(right: BPlusNode)
      requires Shows(g) && right in g && forall c | c in g[right].children :: c in g && c != right
      modifies this`g, (set c | c in right.children)`parent
      ensures g == Reparent(old(g), old(g)[right].children, right) && Shows(g)
    {
      ghost var g0, kids := g, g[right].children;
      assert right.Is(g[right]);
      assert Reparent(g0, kids[..0], right) == g0;
      var i := 0;
      while i < |right.children|
        invariant i <= |right.children| && right.children == kids
        invariant g == Reparent(g0, kids[..i], right) && Shows(g)
      {
        AdoptOne(right.children[i], right);
        ReparentOne(g0, kids, i, right);
        i := i + 1;
      }
      assert kids[..i] == kids;
    }

    method AdoptOne(child: BPlusNode, right: BPlusNode)
      requires Shows(g) && child in g
      modifies this`g, child`parent
      ensures g == old(g)[child := old(g)[child].(parent := right)] && Shows(g)
    {
      assert child.Is(g[child]);
      child.parent := right;
      forall n {:trigger n.Is(g[n])} | n in g && n != child ensures n.Is(g[n]) {
        assert old(n.Is(g[n]));
      }
      g := g[child := g[child].(parent := right)];
    }

    /** Moves the keys above the middle one, and their children, to a new node. */
    method MoveChildren(node: BPlusNode, middle: nat, ghost cut: Cut) returns (right: BPlusNode)
      requires Shows(g) && node in g && !g[node].isLeaf && g[node].records == []
      requires middle < |g[node].keys| && |g[node].children| == |g[node].keys| + 1
               && cut == InnerCut(g, g[node], middle)
      modifies this`g, node`keys, node`children
      ensures fresh(right) && g == PutHalves(old(g), node, right, cut) && Shows(g)
    {
      assert node.Is(g[node]);
      right := new BPlusNode(false, node.parent, node.keys[middle + 1..], [], node.children[middle + 1..]);
      node.keys := node.keys[..middle];
      node.children := node.children[..middle + 1];
      forall n {:trigger n.Is(g[n])} | n in g && n != node ensures n.Is(g[n]) {
        assert old(n.Is(g[n]));
      }
      g := PutHalves(g, node, right, cut);
    }

    /** The halves of the old root get a new root. */
    method HookAtRoot(promotedKey: int, right: BPlusNode, ghost g0: Graph, ghost cut: Cut)
      requires root != null && Cutting(g0, root, right, cut) && promotedKey == cut.key
      modifies this`root, this`g, g.Keys
      ensures Valid() && root != null && OnlyNew(old(g)) && Contents() == ContentOf(g0, old(root))
    {
      assert NodeOk(g0, root);
      ghost var n: BPlusNode := root;
      GrowRoot(right, promotedKey, g0[n]);
      SplitAtRoot(order, g0, n, right, root, cut);
    }

    /** The right half becomes the next child of `parent`, which is split in turn when that overfills it. */
    method HookBelow(node: BPlusNode, parent: BPlusNode, index: nat, promotedKey: int, right: BPlusNode,
                     ghost g0: Graph, ghost cut: Cut)
      requires Cutting(g0, node, right, cut) && promotedKey == cut.key
      requires parent == g0[node].parent && IsChild(g0, node, index)
      modifies this`root, this`g, g.Keys
      ensures Valid() && root != null && OnlyNew(old(g)) && Contents() == ContentOf(g0, old(root))
      decreases Above(g0, node), 0
    {
      BelowParent(order, g0, root, node, right, cut, index);
      Hook(parent, index, promotedKey, right);
      SplitIfFull(parent);
    }

    method HookRight(node: BPlusNode, parent: BPlusNode?, index: nat, promotedKey: int, right: BPlusNode,
                     ghost g0: Graph, ghost cut: Cut)
      requires Cutting(g0, node, right, cut) && promotedKey == cut.key
      requires parent == g0[node].parent && (parent != null ==> IsChild(g0, node, index))
      modifies this`root, this`g, g.Keys
      ensures Valid() && root != null && OnlyNew(old(g)) && Contents() == ContentOf(g0, old(root))
      decreases Above(g0, node), 1
    {
      if parent == null {
        assert NodeOk(g0, node);
        HookAtRoot(promotedKey, right, g0, cut);
      } else {
        HookBelow(node, parent, index, promotedKey, right, g0, cut);
      }
    }

    method SplitIfFull(node: BPlusNode)
      requires root != null && node in g && !g[node].isLeaf && Holds(if |g[node].keys| > order then node else null)
      modifies this`root, this`g, g.Keys
      ensures Valid() && root != null && OnlyNew(old(g)) && Contents() == old(Contents())
      decreases Above(g, node), 3
    {
      assert node.Is(g[node]);
      if |node.keys| > order {
        var parent := node.parent;
        var index := 0;
        if parent != null {
          Linked(node);
          index := ChildIndex(parent, node);
        }
        SplitInternal(node, parent, index);
      }
    }

    /** Moves the keys above the middle one, and their children, to a new node, to which the children then belong. */
    method MoveHalf(node: BPlusNode, middle: nat, ghost cut: Cut) returns (right: BPlusNode)
      requires Shows(g) && node in g && !g[node].isLeaf && g[node].records == []
      requires middle < |g[node].keys| && |g[node].children| == |g[node].keys| + 1
               && cut == InnerCut(g, g[node], middle)
      requires forall c | c in g[node].children :: c in g && c != node
      modifies this`g, g.Keys
      ensures fresh(right) && g == CutNode(old(g), node, right, cut) && Shows(g)
    {
      ghost var g0 := g;
      right := MoveChildren(node, middle, cut);
      assert forall c | c in cut.right.children :: c in g0[node].children;
      assert right.Is(g[right]);
      Adopt(right);
      CutNodeOfInner(g0, node, right, cut);
    }

    method CutInner(node: BPlusNode, ghost cut: Cut) returns (right: BPlusNode, promotedKey: int)
      requires Holds(node) && root != null && node in g && !g[node].isLeaf
      requires order / 2 < |g[node].keys| && |g[node].children| == |g[node].keys| + 1
      requires cut == InnerCut(g, g[node], order / 2)
      modifies this`g, g.Keys
      ensures fresh(right) && Cutting(old(g), node, right, cut)
      ensures g.Keys == old(g).Keys + {right} && promotedKey == cut.key
    {
      InnerCutFits(order, g, root, node);
      KidsOf(g, node);
      assert node.Is(g[node]);
      promotedKey := node.keys[order / 2];
      right := MoveHalf(node, order / 2, cut);
    }

    /** Cuts the overfull inner `node` in two and hooks the new right half in next to it. */
    method SplitInternal(node: BPlusNode, parent: BPlusNode?, index: nat)
      requires Holds(node) && root != null && node in g && !g[node].isLeaf && parent == g[node].parent
      requires parent != null ==> index < |parent.children| && parent.children[index] == node
      modifies this`root, this`g, g.Keys
      ensures Valid() && root != null && OnlyNew(old(g)) && Contents() == old(Contents())
      decreases Above(g, node), 2
    {
      ghost var g0 := g;
      FoundChild(node, parent, index);
      OverfullInner(order, g, root, node);
      ghost var cut := InnerCut(g, g[node], order / 2);
      var right, promotedKey := CutInner(node, cut);
      ghost var g1 := g;
      HookRight(node, parent, index, promotedKey, right, g0, cut);
      forall n | n in g && n !in g0 ensures fresh(n) {
        assert n in g1 ==> n == right;
      }
    }
  
    method PlantRoot()
      requires Valid() && root == null
      modifies this`root, this`g
      ensures Valid() && root != null && OnlyNew(old(g)) && Contents() == []
    {
      root := new BPlusNode(true, null, [], [], []);
      g := map[root := NodeView([], [], null, [], true, [], 0)];
      assert root.Is(g[root]);
      assert NodeOk(g, root);
    }

    method FindSlot(keys: seq<int>, key: int) returns (i: nat)
      ensures i == Slot(keys, key)
    {
      i := 0;
      while i < |keys| && key > keys[i]
        invariant i <= |keys|
        invariant forall j | 0 <= j < i :: keys[j] < key
      {
        i := i + 1;
      }
      SlotIs(keys, key, i);
    }

    /** Puts the record into `leaf`, before the first key that is not smaller. */
    method PutInLeaf(leaf: BPlusNode, rec: IndexRecord)
      requires Valid() && root != null && leaf == LeafFor(g, root, rec.key)
      modifies this`g, leaf`keys, leaf`records
      ensures g == AddTo(old(g), root, rec) && Shows(g) && AllOk(old(g)) && root in old(g)
    {
      AddTouchesLeaf(g, root, rec);
      assert leaf.Is(g[leaf]);
      var i := FindSlot(leaf.keys, rec.key);
      leaf.keys := leaf.keys[..i] + [rec.key] + leaf.keys[i..];
      leaf.records := leaf.records[..i] + [rec] + leaf.records[i..];
      ghost var g0 := g;
      g := AddTo(g, root, rec);
      forall n {:trigger n.Is(g[n])} | n in g ensures n.Is(g[n]) {
        assert old(n.Is(g[n]));
      }
    }

    method AddRecord(leaf: BPlusNode, rec: IndexRecord)
      requires Valid() && root != null && leaf == LeafFor(g, root, rec.key)
      modifies this`g, leaf`keys, leaf`records
      ensures root != null && g.Keys == old(g).Keys && leaf in g && g[leaf].isLeaf
      ensures Holds(if |g[leaf].keys| > order then leaf else null)
      ensures Added(old(Contents()), Contents(), rec)
    {
      ghost var g0 := g;
      AddKeepsTree(order, g, root, rec);
      AddTouchesLeaf(g, root, rec);
      PutInLeaf(leaf, rec);
      assert Contents() == InsertAt(old(Contents()), AddPos(g0, root, rec), rec);
    }

    method SplitLeafIfFull(leaf: BPlusNode)
      requires root != null && leaf in g && g[leaf].isLeaf && Holds(if |g[leaf].keys| > order then leaf else null)
      modifies this`root, this`g, g.Keys
      ensures Valid() && OnlyNew(old(g)) && Contents() == old(Contents())
    {
      assert leaf.Is(g[leaf]);
      if |leaf.keys| > order {
        var index := 0;
        if leaf.parent != null {
          Linked(leaf);
          index := ChildIndex(leaf.parent, leaf);
        }
        SplitLeaf(leaf, leaf.parent, index);
      }
    }

    /** Adds one record; the others keep their order. */
    method Insert(key: int, pageId: int, offset: int)
      requires Valid()
      modifies this`root, this`g, g.Keys
      ensures Valid() && OnlyNew(old(g))
      ensures Added(old(Contents()), Contents(), IndexRecord(key, pageId, offset))
    {
      if root == null {
        PlantRoot();
      }
      var leaf := FindLeaf(key);
      AddRecord(leaf, IndexRecord(key, pageId, offset));
      SplitLeafIfFull(leaf);
    }

    /** In order of the keys, whatever was added in which order. */
    lemma ContentsSorted()
      requires Valid()
      ensures Sorted(Contents())
    {
      if root != null {
        assert NodeOk(g, root);
      }
    }
  }

  lemma RouteIs(keys: seq<int>, key: int, i: nat)
    requires i <= |keys|
    requires forall j | 0 <= j < i :: keys[j] <= key
    requires i < |keys| ==> key < keys[i]
    ensures i == Route(keys, key)
  {
  }

  lemma SlotIs(keys: seq<int>, key: int, i: nat)
    requires i <= |keys|
    requires forall j | 0 <= j < i :: keys[j] < key
    requires i < |keys| ==> key <= keys[i]
    ensures i == Slot(keys, key)
  {
  }
}
