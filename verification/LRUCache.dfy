// A cache of pages that evicts the least recently used one.
module LRUCaches {
  import opened Sequences
  import opened Wrappers
  import opened Pages
  import opened Storage

  class CacheNode {
    const pageId: nat
    var page: Image
    var isDirty: bool

    constructor (pageId: nat, page: Image, isDirty: bool)
      ensures this.pageId == pageId && this.page == page && this.isDirty == isDirty
    {
      this.pageId, this.page, this.isDirty := pageId, page, isDirty;
    }

    function Entry(): CacheEntry
      reads this
    {
      CacheEntry(pageId, page, isDirty)
    }
  }

  // ---- The cache as a value ---------------------------------------------------------------

  datatype CacheEntry = CacheEntry(pageId: nat, page: Image, isDirty: bool)

  /** The cached pages, the most recently used one first. */
  type Cached = seq<CacheEntry>

  function Ids(c: Cached): (ids: seq<nat>)
    ensures |ids| == |c| && forall i | 0 <= i < |c| :: ids[i] == c[i].pageId
  {
    seq(|c|, i requires 0 <= i < |c| => c[i].pageId)
  }

  /** `ids` without `id`. */
  function Without(ids: seq<nat>, id: nat): seq<nat>
  {
    if |ids| == 0 then []
    else if ids[0] == id then Without(ids[1..], id)
    else [ids[0]] + Without(ids[1..], id)
  }

  /** `id` moves to the front, or joins there. */
  function Used(ids: seq<nat>, id: nat): seq<nat>
  {
    [id] + Without(ids, id)
  }

  function First<T>(s: seq<T>, n: nat): seq<T>
  {
    if n <= |s| then s[..n] else s
  }

  lemma {:induction false} WithoutAbsent(ids: seq<nat>, id: nat)
    requires id !in ids
    ensures Without(ids, id) == ids
  {
    if |ids| > 0 {
      WithoutAbsent(ids[1..], id);
    }
  }

  /** Removing the one occurrence at `i`. */
  lemma {:induction false} WithoutAt(ids: seq<nat>, i: nat)
    requires Distinct(ids) && i < |ids|
    ensures Without(ids, ids[i]) == ids[..i] + ids[i + 1..]
  {
    hide Distinct;
    var rest := ids[1..];
    assert ids == [ids[0]] + rest;
    DistinctPieces([ids[0]], rest);
    assert ids[0] in [ids[0]];
    if i == 0 {
      WithoutAbsent(rest, ids[0]);
    } else {
      WithoutAt(rest, i - 1);
      assert rest[i - 1] in rest;
      assert [ids[0]] + (rest[..i - 1] + rest[i..]) == ids[..i] + ids[i + 1..];
    }
  }

  /** Using a page that is cached changes the cached ids exactly as it changes the order of use. */
  lemma UsedHit(used: seq<nat>, capacity: nat, id: nat)
    requires Distinct(used) && id in First(used, capacity)
    ensures Used(First(used, capacity), id) == First(Used(used, id), capacity)
  {
    var c := First(used, capacity);
    var i :| 0 <= i < |c| && c[i] == id;
    WithoutAt(used, i);
    WithoutAt(c, i);
    hide Without;
    FirstFront(used, capacity, i);
  }

  lemma FirstFront(used: seq<nat>, n: nat, i: nat)
    requires i < |used| && i < n
    ensures var c := First(used, n);
            [c[i]] + (c[..i] + c[i + 1..]) == First([used[i]] + (used[..i] + used[i + 1..]), n)
  {
  }

  /** Using another page puts it in front and, when the cache is full, drops the page used longest ago. */
  lemma UsedMiss(used: seq<nat>, capacity: nat, id: nat)
    requires Distinct(used) && id !in First(used, capacity) && capacity > 0
    ensures var c := First(used, capacity);
            [id] + (if |c| >= capacity then c[..|c| - 1] else c) == First(Used(used, id), capacity)
  {
    var c := First(used, capacity);
    if id in used {
      var i :| 0 <= i < |used| && used[i] == id;
      assert forall j | 0 <= j < |c| :: c[j] == used[j];
      assert |c| <= i;
      WithoutAt(used, i);
    } else {
      WithoutAbsent(used, id);
    }
  }

  lemma {:induction false} UsedDistinct(used: seq<nat>, id: nat)
    requires Distinct(used)
    ensures Distinct(Used(used, id))
  {
    if i :| 0 <= i < |used| && used[i] == id {
      WithoutAt(used, i);
      var rest := used[..i] + used[i + 1..];
      assert id !in rest;
    } else {
      WithoutAbsent(used, id);
    }
  }

  /** The pages in the order of their last use, the one used last first: `uses` lists every use in the order of time. */
  function Recent(uses: seq<nat>): seq<nat>
  {
    if |uses| == 0 then [] else Used(Recent(uses[..|uses| - 1]), uses[|uses| - 1])
  }

  lemma {:induction false} RecentNext(uses: seq<nat>, id: nat)
    ensures Distinct(Recent(uses)) && Recent(uses + [id]) == Used(Recent(uses), id)
  {
    assert (uses + [id])[..|uses|] == uses;
    if |uses| > 0 {
      var n := |uses| - 1;
      RecentNext(uses[..n], uses[n]);
      assert uses[..n] + [uses[n]] == uses;
      UsedDistinct(Recent(uses[..n]), uses[n]);
    }
  }

  /** When a page was used last. */
  function LastUse(uses: seq<nat>, id: nat): nat
    requires id in uses
  {
    var n := |uses| - 1;
    if uses[n] == id then n else LastUse(uses[..n], id)
  }

  lemma {:induction false} LastUseMeans(uses: seq<nat>, id: nat)
    requires id in uses
    ensures var i := LastUse(uses, id); i < |uses| && uses[i] == id && id !in uses[i + 1..]
  {
    var n, i := |uses| - 1, LastUse(uses, id);
    if uses[n] != id {
      LastUseMeans(uses[..n], id);
      assert uses[i + 1..] == uses[..n][i + 1..] + [uses[n]];
    }
  }

  lemma LastUseNext(uses: seq<nat>, id: nat, x: nat)
    ensures LastUse(uses + [id], id) == |uses|
    ensures x in uses && x != id ==> LastUse(uses + [id], x) == LastUse(uses, x) < |uses|
  {
    assert (uses + [id])[..|uses|] == uses;
    if x in uses {
      LastUseMeans(uses, x);
    }
  }

  lemma WithoutHas(ids: seq<nat>, id: nat)
    requires Distinct(ids)
    ensures forall x :: x in Without(ids, id) <==> x in ids && x != id
  {
    hide Without;
    if k :| 0 <= k < |ids| && ids[k] == id {
      WithoutAt(ids, k);
      var w := ids[..k] + ids[k + 1..];
      forall i | 0 <= i < |w| ensures w[i] in ids && w[i] != id {
        assert w[i] == ids[if i < k then i else i + 1];
      }
      forall x | x in ids && x != id ensures x in w {
        var i :| 0 <= i < |ids| && ids[i] == x;
        assert w[if i < k then i else i - 1] == x;
      }
    } else {
      WithoutAbsent(ids, id);
    }
  }

  /** What is left stands in the order in which it stood. */
  lemma WithoutKeepsOrder(ids: seq<nat>, id: nat, i: nat, j: nat) returns (k: nat, l: nat)
    requires Distinct(ids) && i < j < |Without(ids, id)|
    ensures k < l < |ids| && ids[k] == Without(ids, id)[i] && ids[l] == Without(ids, id)[j]
  {
    hide Without;
    if at :| 0 <= at < |ids| && ids[at] == id {
      WithoutAt(ids, at);
      k, l := if i < at then i else i + 1, if j < at then j else j + 1;
    } else {
      WithoutAbsent(ids, id);
      k, l := i, j;
    }
  }

  lemma NoneTwice<T>()
    ensures Distinct<T>([])
  {
  }

  /** Every page that was used is listed once. */
  lemma {:induction false} RecentHas(uses: seq<nat>)
    ensures Distinct(Recent(uses)) && forall id :: id in Recent(uses) <==> id in uses
  {
    hide Without, Distinct;
    if |uses| == 0 {
      NoneTwice<nat>();
    } else {
      var n, before := |uses| - 1, Recent(uses[..|uses| - 1]);
      RecentHas(uses[..n]);
      UsedDistinct(before, uses[n]);
      WithoutHas(before, uses[n]);
      assert uses == uses[..n] + [uses[n]];
      assert forall id :: id in Recent(uses) <==> id == uses[n] || id in Without(before, uses[n]);
    }
  }

  lemma RecentFirst(uses: seq<nat>, i: nat)
    requires uses != [] && i < |Recent(uses)|
    ensures var n, w := |uses| - 1, Without(Recent(uses[..|uses| - 1]), uses[|uses| - 1]);
            && |Recent(uses)| == |w| + 1 && (i == 0 ==> Recent(uses)[0] == uses[n])
            && (i > 0 ==> Recent(uses)[i] == w[i - 1] && w[i - 1] in w)
  {
    hide Without;
  }

  /** A page that was used later stands further in front. */
  lemma {:induction false} RecentInOrder(uses: seq<nat>, i: nat, j: nat)
    requires i < j < |Recent(uses)|
    ensures Recent(uses)[i] in uses && Recent(uses)[j] in uses
    ensures LastUse(uses, Recent(uses)[i]) > LastUse(uses, Recent(uses)[j])
    decreases |uses|
  {
    hide Without, Distinct, LastUse, Recent;
    RecentHas(uses);
    assert Recent(uses)[i] in uses;
    var n, id := |uses| - 1, uses[|uses| - 1];
    var before := Recent(uses[..n]);
    assert uses == uses[..n] + [id];
    RecentHas(uses[..n]);
    WithoutHas(before, id);
    RecentFirst(uses, i);
    RecentFirst(uses, j);
    LastUseNext(uses[..n], id, Recent(uses)[j]);
    if i > 0 {
      var k, l := WithoutKeepsOrder(before, id, i - 1, j - 1);
      RecentInOrder(uses[..n], k, l);
      LastUseNext(uses[..n], id, Recent(uses)[i]);
    }
  }

  function Elements(s: seq<nat>): set<nat>
  {
    set x | x in s
  }

  lemma {:induction false} DistinctCount(s: seq<nat>)
    requires Distinct(s)
    ensures |s| == |Elements(s)|
  {
    hide Distinct;
    if |s| > 0 {
      var n := |s| - 1;
      DistinctDropLast(s);
      DistinctCount(s[..n]);
      assert s == s[..n] + [s[n]];
      assert Elements(s) == Elements(s[..n]) + {s[n]};
    }
  }

  /** The cached pages are as many of the used pages as the cache can hold. */
  lemma CachedCount(uses: seq<nat>, capacity: nat)
    ensures var all := |Elements(uses)|; |First(Recent(uses), capacity)| == if all < capacity then all else capacity
    ensures forall id | id in First(Recent(uses), capacity) :: id in uses
  {
    hide Recent, Distinct, LastUse;
    RecentHas(uses);
    DistinctCount(Recent(uses));
    assert Elements(Recent(uses)) == Elements(uses);
  }

  /** A cached page was used later than every page that stands behind it in the cache, and than every used page that is
      not cached. */
  lemma CachedAreUsedLast(uses: seq<nat>, capacity: nat, i: nat, other: nat)
    requires i < |First(Recent(uses), capacity)| && other in uses && other !in First(Recent(uses), capacity)[..i + 1]
    ensures var ids := First(Recent(uses), capacity);
            ids[i] in uses && LastUse(uses, ids[i]) > LastUse(uses, other)
  {
    hide Recent, Distinct, LastUse;
    RecentHas(uses);
    var r := Recent(uses);
    var j :| 0 <= j < |r| && r[j] == other;
    assert forall k | 0 <= k <= i :: First(r, capacity)[..i + 1][k] == r[k];
    RecentInOrder(uses, i, j);
  }

  // ---- Looking pages up -------------------------------------------------------------------

  function Lookup(c: Cached, id: nat): Option<CacheEntry>
  {
    if |c| == 0 then None else if c[0].pageId == id then Some(c[0]) else Lookup(c[1..], id)
  }

  function WithoutId(c: Cached, id: nat): Cached
  {
    if |c| == 0 then []
    else if c[0].pageId == id then WithoutId(c[1..], id)
    else [c[0]] + WithoutId(c[1..], id)
  }

  lemma {:induction false} LookupAbsent(c: Cached, id: nat)
    requires id !in Ids(c)
    ensures Lookup(c, id) == None && WithoutId(c, id) == c
  {
    if |c| > 0 {
      assert Ids(c)[0] == c[0].pageId && Ids(c[1..]) == Ids(c)[1..];
      LookupAbsent(c[1..], id);
    }
  }

  lemma {:induction false} LookupAt(c: Cached, i: nat)
    requires Distinct(Ids(c)) && i < |c|
    ensures Lookup(c, c[i].pageId) == Some(c[i]) && WithoutId(c, c[i].pageId) == c[..i] + c[i + 1..]
  {
    assert Ids(c[1..]) == Ids(c)[1..];
    assert Distinct(Ids(c[1..])) by {
      assert Ids(c) == [Ids(c)[0]] + Ids(c)[1..];
      DistinctPieces([Ids(c)[0]], Ids(c)[1..]);
    }
    if i == 0 {
      forall k | 0 <= k < |c[1..]| ensures Ids(c[1..])[k] != c[0].pageId {
        assert Ids(c)[k + 1] == Ids(c[1..])[k];
      }
      LookupAbsent(c[1..], c[0].pageId);
    } else {
      assert Ids(c)[0] != Ids(c)[i];
      LookupAt(c[1..], i - 1);
    }
  }

  /** The cache after a look-up of `id`. */
  function Touched(c: Cached, id: nat): Cached
  {
    match Lookup(c, id)
    case None => c
    case Some(e) => [e] + WithoutId(c, id)
  }

  /** The cache after `e` was put in. */
  function PutIn(c: Cached, capacity: nat, e: CacheEntry): Cached
  {
    [e] + if Lookup(c, e.pageId).Some? then WithoutId(c, e.pageId) else Trimmed(c, capacity)
  }

  /** The cache after it has made room for one more page. */
  function Trimmed(c: Cached, capacity: nat): Cached
  {
    if |c| >= capacity && |c| > 0 then c[..|c| - 1] else c
  }

  /** The entry that has to make room is dirty. */
  predicate DropsDirty(c: Cached, capacity: nat)
  {
    |c| >= capacity && |c| > 0 && c[|c| - 1].isDirty
  }

  // ---- The cache over its store -----------------------------------------------------------

  /** What a reader of the cache over the file sees as page `id`. */
  function Seen(c: Cached, pages: seq<Image>, id: nat): Image
    requires id < |pages|
  {
    match Lookup(c, id)
    case Some(e) => e.page
    case None => pages[id]
  }

  /** All pages as a reader of the cache over the file sees them. */
  function Reading(c: Cached, pages: seq<Image>): (r: seq<Image>)
    ensures |r| == |pages|
    ensures forall id: nat {:trigger r[id]} | id < |pages| :: r[id] == Seen(c, pages, id)
  {
    seq(|pages|, id requires 0 <= id < |pages| => Seen(c, pages, id))
  }

  /** The file after the entry was evicted. */
  function Flushed(pages: seq<Image>, e: CacheEntry): seq<Image>
  {
    if e.isDirty && e.pageId < |pages| then pages[e.pageId := e.page] else pages
  }

  /** The disk after the cache `c` has made room for one more page. */
  function WithRoom(c: Cached, capacity: nat, d: DiskState): DiskState
  {
    if DropsDirty(c, capacity) then d.(pages := Flushed(d.pages, c[|c| - 1])) else d
  }

  ghost predicate CleanMatches(c: Cached, pages: seq<Image>)
  {
    forall i | 0 <= i < |c| :: c[i].pageId < |pages| && (!c[i].isDirty ==> pages[c[i].pageId] == c[i].page)
  }

  /** Evicting the last entry, dirty or not, changes nothing that a reader sees. */
  lemma EvictionInvisible(c: Cached, pages: seq<Image>, id: nat)
    requires c != [] && Distinct(Ids(c)) && CleanMatches(c, pages) && id < |pages|
    ensures var n := |c| - 1; Seen(c[..n], Flushed(pages, c[n]), id) == Seen(c, pages, id)
  {
    var n := |c| - 1;
    assert Ids(c[..n]) == Ids(c)[..n];
    if id in Ids(c) {
      var i :| 0 <= i < |c| && c[i].pageId == id;
      LookupAt(c, i);
      if i < n {
        LookupAt(c[..n], i);
      } else {
        forall k | 0 <= k < n ensures Ids(c[..n])[k] != id {
          assert Ids(c)[k] != Ids(c)[n];
        }
        LookupAbsent(c[..n], id);
      }
    } else {
      LookupAbsent(c, id);
      assert id !in Ids(c[..n]);
      LookupAbsent(c[..n], id);
      assert Ids(c)[n] == c[n].pageId;
    }
  }

  lemma EvictionKeepsMatches(c: Cached, pages: seq<Image>)
    requires c != [] && Distinct(Ids(c)) && CleanMatches(c, pages)
    ensures var n := |c| - 1; CleanMatches(c[..n], Flushed(pages, c[n])) && Distinct(Ids(c[..n]))
  {
    var n := |c| - 1;
    assert Ids(c[..n]) == Ids(c)[..n];
    forall i | 0 <= i < n ensures c[i].pageId != c[n].pageId {
      assert Ids(c)[i] == c[i].pageId && Ids(c)[n] == c[n].pageId;
    }
  }

  // ---- The cache --------------------------------------------------------------------------

  function Shown(list: seq<CacheNode>): (c: Cached)
    reads list
    ensures |c| == |list|
    ensures forall i | 0 <= i < |c| :: c[i] == list[i].Entry()
  {
    seq(|list|, i requires 0 <= i < |list| reads list => list[i].Entry())
  }

  /** Element `i` moves to the front. */
  function Front<T>(s: seq<T>, i: nat): seq<T>
    requires i < |s|
  {
    [s[i]] + (s[..i] + s[i + 1..])
  }

  lemma FrontIs<T>(s: seq<T>, i: nat)
    requires i < |s|
    ensures Front(s, i) == [s[i]] + (s[..i] + s[i + 1..]) && |Front(s, i)| == |s|
  {
  }

  lemma FrontAt<T>(s: seq<T>, i: nat, k: nat)
    requires i < |s| && k < |s|
    ensures |Front(s, i)| == |s| && Front(s, i)[k] == s[if k == 0 then i else if k <= i then k - 1 else k]
  {
  }

  lemma FrontKeeps<T>(s: seq<T>, i: nat)
    requires Distinct(s) && i < |s|
    ensures Distinct(Front(s, i))
    ensures forall x | x in Front(s, i) :: x in s
    ensures forall x | x in s :: x in Front(s, i)
  {
    var f := Front(s, i);
    forall x | x in s ensures x in f {
      var k :| 0 <= k < |s| && s[k] == x;
      assert f[if k == i then 0 else if k < i then k + 1 else k] == x;
    }
  }

  lemma ShownFront(list: seq<CacheNode>, i: nat)
    requires i < |list|
    ensures Shown(Front(list, i)) == Front(Shown(list), i)
  {
    forall k | 0 <= k < |list| ensures Shown(Front(list, i))[k] == Front(Shown(list), i)[k] {
      FrontAt(list, i, k);
      FrontAt(Shown(list), i, k);
    }
  }

  lemma ShownPrefix(list: seq<CacheNode>, n: nat)
    requires n <= |list|
    ensures Shown(list[..n]) == Shown(list)[..n]
  {
  }

  class LRUCache {
    const capacity: nat
    const storage: StorageFile
    var lruList: seq<CacheNode>
    var cacheMap: map<nat, CacheNode>
    /** Every use of a page since the cache was last cleared, in the order of time. */
    ghost var uses: seq<nat>
    /** This cache and every node it ever had. */
    ghost var repr: set<object>

    function View(): Cached
      reads this, lruList
    {
      Shown(lruList)
    }

    /** List and map describe the same pages. */
    ghost predicate Linked()
      reads this, repr
    {
      && this in repr && storage !in repr && storage.disk !in repr && (forall n | n in lruList :: n in repr)
      && capacity >= 1 && Distinct(lruList)
      && (forall n | n in lruList :: n.pageId in cacheMap && cacheMap[n.pageId] == n)
      && (forall id | id in cacheMap :: cacheMap[id] in lruList && cacheMap[id].pageId == id)
    }

    /** The cached pages are the ones used last, as many as the cache may hold. */
    ghost predicate Valid()
      reads this, repr
    {
      Linked() && Ids(View()) == First(Recent(uses), capacity)
    }

    /** Every dirty page has a place in the file. */
    ghost predicate Flushable()
      reads this, lruList, storage, storage.disk`pages
    {
      forall n | n in lruList :: n.isDirty ==> n.pageId < |storage.disk.pages|
    }

    constructor (capacity: nat, storage: StorageFile)
      requires capacity >= 1
      ensures Valid() && View() == [] && uses == [] && fresh(repr)
      ensures this.capacity == capacity && this.storage == storage
    {
      this.capacity, this.storage := capacity, storage;
      lruList, cacheMap, uses, repr := [], map[], [], {this};
    }

    lemma IdsDistinct()
      requires Linked()
      ensures Distinct(Ids(View()))
    {
      var ids := Ids(View());
      forall i, j | 0 <= i < j < |ids| ensures ids[i] != ids[j] {
        assert lruList[i] in lruList && lruList[j] in lruList && lruList[i] != lruList[j];
      }
    }

    /** Where the node of a cached page is in the list. */
    lemma NodeAt(id: nat) returns (i: nat)
      requires Linked() && id in cacheMap
      ensures i < |lruList| && lruList[i] == cacheMap[id] && View()[i].pageId == id
      ensures Lookup(View(), id) == Some(View()[i]) && WithoutId(View(), id) == View()[..i] + View()[i + 1..]
    {
      i :| 0 <= i < |lruList| && lruList[i] == cacheMap[id];
      IdsDistinct();
      LookupAt(View(), i);
    }

    lemma ListedIsMapped(node: CacheNode, i: nat)
      requires Linked() && node.pageId in cacheMap && cacheMap[node.pageId] == node
      requires i < |lruList| && lruList[i] == cacheMap[node.pageId]
      ensures lruList[i] == node && i < |View()| && View()[i] == node.Entry()
    {
    }

    lemma NotCached(id: nat)
      requires Linked() && id !in cacheMap
      ensures id !in Ids(View()) && Lookup(View(), id) == None
    {
      LookupAbsent(View(), id);
    }

    /** Splices the node at `i` to the front of the list: its page was used. */
    method Splice(node: CacheNode, ghost i: nat)
      requires Linked() && i < |lruList| && lruList[i] == node
      modifies this`lruList, this`uses
      ensures uses == old(uses) + [node.pageId]
      ensures Linked() && View() == Front(old(View()), i) && |lruList| == |old(lruList)|
      ensures forall n | n in lruList :: n in old(lruList)
      ensures forall n | n in old(lruList) :: n in lruList
    {
      hide Distinct, Front, Removed, Shown;
      RemovedAt(lruList, i);
      FrontIs(lruList, i);
      FrontKeeps(lruList, i);
      ShownFront(lruList, i);
      lruList := [node] + Removed(lruList, node);
      uses := uses + [node.pageId];
    }

    /** Moves the node of a cached page to the front of the list. */
    method MoveToFront(node: CacheNode)
      requires Valid() && node.pageId in cacheMap && cacheMap[node.pageId] == node
      modifies this`lruList, this`uses
      ensures Valid() && |lruList| == |old(lruList)|
      ensures forall n | n in lruList :: n in old(lruList)
      ensures forall n | n in old(lruList) :: n in lruList
      ensures View() == Touched(old(View()), node.pageId) && uses == old(uses) + [node.pageId]
    {
      hide LRUCache.Linked, Used, Recent, First, Lookup, WithoutId, Ids;
      ghost var i := NodeAt(node.pageId);
      ghost var v := View();
      IdsDistinct();
      RecentNext(uses, node.pageId);
      FrontUsed(v, Recent(uses), capacity, i);
      ListedIsMapped(node, i);
      Splice(node, i);
    }

    /** The node of a page, which becomes the most recently used one. */
    method Get(pageId: nat) returns (node: CacheNode?)
      requires Valid()
      modifies this`lruList, this`uses
      ensures Valid() && View() == Touched(old(View()), pageId)
      ensures forall n | n in lruList :: n in old(lruList)
      ensures node == null <==> Lookup(old(View()), pageId) == None
      ensures uses == if node == null then old(uses) else old(uses) + [pageId]
      ensures node != null ==> node in lruList && Lookup(old(View()), pageId) == Some(node.Entry())
    {
      if pageId !in cacheMap {
        NotCached(pageId);
        return null;
      }
      ghost var i := NodeAt(pageId);
      node := cacheMap[pageId];
      assert View()[i] == node.Entry();
      MoveToFront(node);
    }

    /** Drops the least recently used page, and writes it back if it is dirty. */
    method Evict(ghost c: Cached)
      requires Linked() && Flushable() && c != [] && c == View()
      modifies this`lruList, this`cacheMap, storage.disk`pages, storage.disk`history
      ensures Linked() && View() == c[..|c| - 1]
      ensures forall n | n in lruList :: n in old(lruList)
      ensures forall id | id in cacheMap :: id in old(cacheMap)
      ensures storage.disk.pages == Flushed(old(storage.disk.pages), c[|c| - 1])
      ensures !c[|c| - 1].isDirty ==> storage.disk.history == old(storage.disk.history)
    {
      hide Shown, Distinct;
      var n := |lruList| - 1;
      var last := lruList[n];
      assert last in lruList && last.Entry() == c[n];
      if last.isDirty {
        storage.WritePage(last.pageId, last.page);
      }
      ShownPrefix(lruList, n);
      Unlink();
    }

    /** Takes the last node out of list and map. */
    method Unlink()
      requires Linked() && lruList != []
      modifies this`lruList, this`cacheMap
      ensures Linked() && lruList == old(lruList[..|lruList| - 1])
      ensures forall id | id in cacheMap :: id in old(cacheMap)
    {
      var n := |lruList| - 1;
      assert lruList[n] in lruList;
      DistinctDropLast(lruList);
      cacheMap := cacheMap - {lruList[n].pageId};
      lruList := lruList[..n];
    }

    method PushFront(pageId: nat, page: Image, isDirty: bool)
      requires Linked() && pageId !in cacheMap
      modifies this`lruList, this`cacheMap, this`repr
      ensures Linked() && View() == [CacheEntry(pageId, page, isDirty)] + old(View())
      ensures fresh(repr - old(repr))
    {
      hide Shown;
      ghost var v, list := View(), lruList;
      var node := new CacheNode(pageId, page, isDirty);
      repr := repr + {node};
      lruList := [node] + lruList;
      cacheMap := cacheMap[node.pageId := node];
      forall k | 0 <= k < |lruList| ensures View()[k] == ([node.Entry()] + v)[k] {
        assert k > 0 ==> lruList[k] == list[k - 1];
      }
    }

    /** A cached page gets a new content and becomes the most recently used one. */
    method Replace(node: CacheNode, page: Image, isDirty: bool)
      requires Valid() && node.pageId in cacheMap && cacheMap[node.pageId] == node
      modifies this`lruList, this`uses, node`page, node`isDirty
      ensures Valid() && View() == PutIn(old(View()), capacity, CacheEntry(node.pageId, page, isDirty))
      ensures forall n | n in lruList :: n in old(lruList)
      ensures uses == old(uses) + [node.pageId]
    {
      ghost var v, e := View(), CacheEntry(node.pageId, page, isDirty);
      ghost var i := NodeAt(node.pageId);
      Overwrite(node, page, isDirty, i);
      UpdateEntry(v, e, i);
      MoveToFront(node);
    }

    method Overwrite(node: CacheNode, page: Image, isDirty: bool, ghost i: nat)
      requires Valid() && i < |lruList| && lruList[i] == node
      modifies node`page, node`isDirty
      ensures Valid() && View() == old(View())[i := CacheEntry(node.pageId, page, isDirty)]
    {
      ghost var v := View();
      node.page := page;
      node.isDirty := isDirty;
      assert View() == v[i := node.Entry()] by {
        forall k | 0 <= k < |v| ensures View()[k] == v[i := node.Entry()][k] {
          assert lruList[k] == node <==> k == i;
        }
      }
      assert Ids(View()) == Ids(v);
    }

    /** Puts a page in; when the cache is full, the page used longest ago makes room, and reaches the file if dirty. */
    method Put(pageId: nat, page: Image, isDirty: bool)
      requires Valid() && Flushable()
      modifies repr, storage.disk`pages, storage.disk`history
      ensures Valid() && View() == PutIn(old(View()), capacity, CacheEntry(pageId, page, isDirty))
      ensures uses == old(uses) + [pageId] && fresh(repr - old(repr))
      ensures storage.disk.State() == if Lookup(old(View()), pageId).Some? then old(storage.disk.State())
                                      else WithRoom(old(View()), capacity, old(storage.disk.State()))
      ensures Lookup(old(View()), pageId).Some? || !DropsDirty(old(View()), capacity) ==>
                storage.disk.history == old(storage.disk.history)
    {
      if pageId in cacheMap {
        ghost var i := NodeAt(pageId);
        Replace(cacheMap[pageId], page, isDirty);
      } else {
        PutNew(pageId, page, isDirty);
      }
    }

    method MakeRoom()
      requires Linked() && Flushable()
      modifies this`lruList, this`cacheMap, storage.disk`pages, storage.disk`history
      ensures Linked() && View() == Trimmed(old(View()), capacity)
      ensures forall n | n in lruList :: n in old(lruList)
      ensures forall id | id in cacheMap :: id in old(cacheMap)
      ensures storage.disk.State() == WithRoom(old(View()), capacity, old(storage.disk.State()))
      ensures !DropsDirty(old(View()), capacity) ==> storage.disk.history == old(storage.disk.history)
    {
      if |lruList| >= capacity {
        Evict(View());
      }
    }

    method PutNew(pageId: nat, page: Image, isDirty: bool)
      requires Valid() && Flushable() && pageId !in cacheMap
      modifies this`lruList, this`cacheMap, this`uses, this`repr, storage.disk`pages, storage.disk`history
      ensures Valid() && View() == PutIn(old(View()), capacity, CacheEntry(pageId, page, isDirty))
      ensures uses == old(uses) + [pageId] && fresh(repr - old(repr))
      ensures Lookup(old(View()), pageId) == None
      ensures storage.disk.State() == WithRoom(old(View()), capacity, old(storage.disk.State()))
      ensures !DropsDirty(old(View()), capacity) ==> storage.disk.history == old(storage.disk.history)
    {
      hide Used, Recent, First, LRUCache.Flushable, WithRoom, DropsDirty, Ids;
      ghost var v, e := View(), CacheEntry(pageId, page, isDirty);
      NotCached(pageId);
      RecentNext(uses, pageId);
      PutInNew(v, Recent(uses), capacity, e);
      MakeRoom();
      PushFront(pageId, page, isDirty);
      uses := uses + [pageId];
    }

    method Clear()
      requires Valid()
      modifies this`lruList, this`cacheMap, this`uses
      ensures Valid() && View() == [] && uses == []
    {
      lruList, cacheMap, uses := [], map[], [];
    }

    /** Empties the cache; afterwards the file holds what a reader of the cache saw. */
    method FlushAll()
      requires Valid() && Flushable() && CleanMatches(View(), storage.disk.pages)
      modifies this`lruList, this`cacheMap, this`uses, storage.disk`pages, storage.disk`history
      ensures Valid() && View() == [] && lruList == [] && uses == []
      ensures storage.disk.pages == Reading(old(View()), old(storage.disk.pages))
      ensures (forall n | n in old(lruList) :: !n.isDirty) ==>
                storage.disk.pages == old(storage.disk.pages) && storage.disk.history == old(storage.disk.history)
    {
      IdsDistinct();
      ghost var v, pages := View(), storage.disk.pages;
      ghost var c, p := v, pages;
      while lruList != []
        invariant Linked() && Flushable() && c == View() && p == storage.disk.pages
        invariant Distinct(Ids(c)) && CleanMatches(c, p) && Reading(c, p) == Reading(v, pages)
        invariant forall n | n in lruList :: n in old(lruList)
        invariant (forall n | n in old(lruList) :: !n.isDirty) ==>
                    p == pages && storage.disk.history == old(storage.disk.history)
        decreases |lruList|
      {
        EvictOnce(c, p);
        Evict(c);
        c, p := c[..|c| - 1], Flushed(p, c[|c| - 1]);
      }
      uses := [];
      assert p == Reading(c, p);
    }
  }

  lemma EvictOnce(c: Cached, pages: seq<Image>)
    requires Distinct(Ids(c)) && CleanMatches(c, pages) && c != []
    ensures Reading(c[..|c| - 1], Flushed(pages, c[|c| - 1])) == Reading(c, pages)
    ensures Distinct(Ids(c[..|c| - 1])) && CleanMatches(c[..|c| - 1], Flushed(pages, c[|c| - 1]))
  {
    var n := |c| - 1;
    EvictionKeepsMatches(c, pages);
    forall id: nat | id < |pages| ensures Reading(c[..n], Flushed(pages, c[n]))[id] == Reading(c, pages)[id] {
      EvictionInvisible(c, pages, id);
    }
  }

  lemma UpdateEntry(v: Cached, e: CacheEntry, i: nat)
    requires Distinct(Ids(v)) && i < |v| && v[i].pageId == e.pageId
    ensures Ids(v[i := e]) == Ids(v)
    ensures Touched(v[i := e], e.pageId) == PutIn(v, 1, e) && forall c: nat :: PutIn(v, c, e) == PutIn(v, 1, e)
  {
    assert Ids(v[i := e]) == Ids(v);
    LookupAt(v, i);
    LookupAt(v[i := e], i);
  }

  lemma PutInNew(v: Cached, used: seq<nat>, capacity: nat, e: CacheEntry)
    requires Ids(v) == First(used, capacity) && Distinct(used) && e.pageId !in Ids(v) && capacity > 0
    requires Lookup(v, e.pageId) == None
    ensures Distinct(Used(used, e.pageId)) && PutIn(v, capacity, e) == [e] + Trimmed(v, capacity)
    ensures Ids([e] + Trimmed(v, capacity)) == First(Used(used, e.pageId), capacity)
  {
    UsedMiss(used, capacity, e.pageId);
    UsedDistinct(used, e.pageId);
    var rest := Trimmed(v, capacity);
    assert Ids([e] + rest) == [e.pageId] + Ids(rest);
    assert Ids(rest) == if |v| >= capacity then Ids(v)[..|v| - 1] else Ids(v);
  }

  lemma DistinctDropLast<T>(s: seq<T>)
    requires Distinct(s) && s != []
    ensures Distinct(s[..|s| - 1]) && s[|s| - 1] !in s[..|s| - 1]
    ensures forall x | x in s :: x in s[..|s| - 1] || x == s[|s| - 1]
  {
    assert s == s[..|s| - 1] + [s[|s| - 1]];
    DistinctPieces(s[..|s| - 1], [s[|s| - 1]]);
  }

  lemma FrontUsed(v: Cached, used: seq<nat>, capacity: nat, i: nat)
    requires Ids(v) == First(used, capacity) && Distinct(Ids(v)) && Distinct(used) && i < |v|
    ensures Distinct(Used(used, v[i].pageId))
    ensures Ids(Front(v, i)) == First(Used(used, v[i].pageId), capacity)
  {
    WithoutAt(Ids(v), i);
    UsedHit(used, capacity, v[i].pageId);
    UsedDistinct(used, v[i].pageId);
    assert Ids(Front(v, i)) == Front(Ids(v), i);
  }

  function Removed(list: seq<CacheNode>, node: CacheNode): seq<CacheNode>
  {
    if |list| == 0 then []
    else if list[0] == node then list[1..]
    else [list[0]] + Removed(list[1..], node)
  }

  lemma {:induction false} RemovedAt(list: seq<CacheNode>, i: nat)
    requires Distinct(list) && i < |list|
    ensures Removed(list, list[i]) == list[..i] + list[i + 1..]
  {
    if i > 0 {
      var rest := list[1..];
      assert forall j, k | 0 <= j < k < |rest| :: rest[j] == list[j + 1] && rest[k] == list[k + 1];
      RemovedAt(rest, i - 1);
      assert rest[..i - 1] == list[1..i] && rest[i..] == list[i + 1..];
    }
  }
}
