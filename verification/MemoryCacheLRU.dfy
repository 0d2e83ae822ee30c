/** The byte-bounded LRU store (MemoryCacheLRU.cpp): a linked list in recency order, a map from
    keys to list nodes, and a running byte count. */
module LruCache {
  import opened Text

  datatype CacheKey = CacheKey(verb: string, pathAndQuery: string, acceptEncoding: string)

  datatype CachedEntry = CachedEntry(
    statusLine: string,
    headers: seq<(string, string)>,
    body: string,
    hardExpire: int,
    softExpire: int)
  {
    function Bytes(): nat {
      |statusLine| + |body| + HeaderBytes(headers)
    }
  }

  function HeaderBytes(hs: seq<(string, string)>): nat {
    if hs == [] then 0 else |hs[0].0| + |hs[0].1| + HeaderBytes(hs[1..])
  }

  /** All the text of an entry in one. */
  function FieldsText(hs: seq<(string, string)>): string {
    if hs == [] then "" else hs[0].0 + hs[0].1 + FieldsText(hs[1..])
  }

  /** The size of an entry is the number of its characters: status line, body, and the names and values
      of its headers. */
  lemma {:induction false} BytesAreCharacters(e: CachedEntry)
    ensures e.Bytes() == |e.statusLine + e.body + FieldsText(e.headers)|
  {
    FieldsAreCharacters(e.headers);
  }

  lemma {:induction false} FieldsAreCharacters(hs: seq<(string, string)>)
    ensures HeaderBytes(hs) == |FieldsText(hs)|
    decreases |hs|
  {
    if hs != [] {
      FieldsAreCharacters(hs[1..]);
    }
  }

  type Item = (CacheKey, CachedEntry)

  // ----- the list, most recent first, as a value

  function TotalBytes(l: seq<Item>): nat {
    if l == [] then 0 else TotalBytes(l[..|l| - 1]) + l[|l| - 1].1.Bytes()
  }

  ghost predicate DistinctKeys(l: seq<Item>) {
    forall i, j :: 0 <= i < j < |l| ==> l[i].0 != l[j].0
  }

  /** Where a key stands in the list, or its length. */
  function Position(l: seq<Item>, k: CacheKey, from: nat := 0): (p: nat)
    requires from <= |l|
    ensures from <= p <= |l|
    ensures p < |l| ==> l[p].0 == k
    ensures forall i :: from <= i < p ==> l[i].0 != k
    decreases |l| - from
  {
    if from == |l| || l[from].0 == k then from else Position(l, k, from + 1)
  }

  function Without<T>(l: seq<T>, p: nat): seq<T> {
    if p < |l| then l[..p] + l[p + 1..] else l
  }

  function Lookup(l: seq<Item>, k: CacheKey): Option<CachedEntry> {
    var p := Position(l, k);
    if p < |l| then Some(l[p].1) else None
  }

  function AfterGet(l: seq<Item>, k: CacheKey): seq<Item> {
    var p := Position(l, k);
    if p < |l| then [l[p]] + Without(l, p) else l
  }

  /** Drop items from the back until the rest fits. */
  function Fit(l: seq<Item>, cap: nat): seq<Item> {
    if TotalBytes(l) <= cap then l else Fit(l[..|l| - 1], cap)
  }

  function AfterSet(l: seq<Item>, cap: nat, k: CacheKey, e: CachedEntry): seq<Item> {
    if e.Bytes() > cap then l else Fit([(k, e)] + Without(l, Position(l, k)), cap)
  }

  function AfterDel(l: seq<Item>, k: CacheKey): seq<Item> {
    Without(l, Position(l, k))
  }

  function AfterPurge(l: seq<Item>, prefix: string): seq<Item> {
    if l == [] then []
    else
      var kept := AfterPurge(l[..|l| - 1], prefix);
      if prefix <= l[|l| - 1].0.pathAndQuery then kept else kept + [l[|l| - 1]]
  }

  lemma {:induction false} TotalBytesConcat(a: seq<Item>, b: seq<Item>)
    ensures TotalBytes(a + b) == TotalBytes(a) + TotalBytes(b)
    decreases |b|
  {
    if b == [] {
      assert a + b == a;
    } else {
      assert (a + b)[..|a + b| - 1] == a + b[..|b| - 1];
      TotalBytesConcat(a, b[..|b| - 1]);
    }
  }

  lemma {:induction false} TotalBytesSplit(l: seq<Item>, p: nat)
    requires p < |l|
    ensures TotalBytes(l) == l[p].1.Bytes() + TotalBytes(Without(l, p))
  {
    assert l == l[..p] + [l[p]] + l[p + 1..];
    TotalBytesConcat(l[..p] + [l[p]], l[p + 1..]);
    TotalBytesConcat(l[..p], [l[p]]);
    TotalBytesConcat(l[..p], l[p + 1..]);
    TotalBytesOne(l[p]);
  }

  lemma {:induction false} TotalBytesOne(x: Item)
    ensures TotalBytes([x]) == x.1.Bytes()
  {
    assert [x][..0] == [];
  }

  /** How far the erasing walk has come: the first `done` items of `l` have been looked at, those
      kept are the first `i` of what is left. */
  predicate Purging(left: seq<Item>, i: nat, l: seq<Item>, done: nat, prefix: string) {
    && done <= |l| && i == |AfterPurge(l[..done], prefix)|
    && left == AfterPurge(l[..done], prefix) + l[done..]
  }

  lemma {:induction false} PurgeStep(left: seq<Item>, i: nat, l: seq<Item>, done: nat, prefix: string)
    requires Purging(left, i, l, done, prefix) && i < |left|
    ensures done < |l|
    ensures if prefix <= left[i].0.pathAndQuery then Purging(Without(left, i), i, l, done + 1, prefix)
            else Purging(left, i + 1, l, done + 1, prefix)
  {
    assert l[..done + 1][..done] == l[..done];
    assert left[i] == l[done];
    var kept := AfterPurge(l[..done], prefix);
    if prefix <= left[i].0.pathAndQuery {
      assert Without(left, i) == kept + l[done + 1..];
    } else {
      assert left == kept + [l[done]] + l[done + 1..];
    }
  }

  /** Before the walk and after it. */
  lemma {:induction false} PurgeEnds(left: seq<Item>, i: nat, l: seq<Item>, done: nat, prefix: string)
    ensures Purging(l, 0, l, 0, prefix)
    ensures Purging(left, i, l, done, prefix) && i >= |left| ==> left == AfterPurge(l, prefix)
  {
    assert l[..|l|] == l && AfterPurge(l[..0], prefix) == [];
  }

  lemma {:induction false} PositionIs(l: seq<Item>, p: nat)
    requires p < |l| && DistinctKeys(l)
    ensures Position(l, l[p].0) == p
  {
  }

  /** What a hit does to the list: the same items, and so as many bytes. */
  lemma {:induction false} MovedToFront(l: seq<Item>, p: nat)
    requires p < |l| && DistinctKeys(l)
    ensures AfterGet(l, l[p].0) == [l[p]] + Without(l, p)
    ensures TotalBytes([l[p]] + Without(l, p)) == TotalBytes(l)
  {
    hide TotalBytes, Position, DistinctKeys, Without;
    PositionIs(l, p);
    TotalBytesSplit(l, p);
    TotalBytesConcat([l[p]], Without(l, p));
    TotalBytesOne(l[p]);
  }

  // ----- the object

  /** A list node; its address is the iterator that the map holds. */
  class Node {
    const key: CacheKey
    var entry: CachedEntry

    constructor (key: CacheKey, entry: CachedEntry)
      ensures this.key == key && this.entry == entry
    {
      this.key, this.entry := key, entry;
    }
  }

  ghost function Items(nodes: seq<Node>): (l: seq<Item>)
    reads nodes
    ensures |l| == |nodes|
    ensures forall i :: 0 <= i < |nodes| ==> l[i] == (nodes[i].key, nodes[i].entry)
  {
    seq(|nodes|, i requires 0 <= i < |nodes| reads nodes => (nodes[i].key, nodes[i].entry))
  }

  lemma {:induction false} ItemsWithout(nodes: seq<Node>, p: nat)
    ensures Items(Without(nodes, p)) == Without(Items(nodes), p)
  {
  }

  lemma {:induction false} ItemsCons(node: Node, nodes: seq<Node>)
    ensures Items([node] + nodes) == [(node.key, node.entry)] + Items(nodes)
  {
  }

  lemma {:induction false} ItemsFront(nodes: seq<Node>, p: nat)
    requires p < |nodes|
    ensures Items([nodes[p]] + Without(nodes, p)) == [Items(nodes)[p]] + Without(Items(nodes), p)
  {
    hide Without;
    ItemsWithout(nodes, p);
    ItemsCons(nodes[p], Without(nodes, p));
  }

  lemma {:induction false} FrontMembers(nodes: seq<Node>, p: nat)
    requires p < |nodes|
    ensures forall n :: n in [nodes[p]] + Without(nodes, p) <==> n in nodes
  {
    assert nodes == nodes[..p] + [nodes[p]] + nodes[p + 1..];
  }

  /** List and map hold the same nodes, each once and under its own key. */
  ghost predicate Indexed(nodes: seq<Node>, index: map<CacheKey, Node>) {
    && (forall i :: 0 <= i < |nodes| ==> nodes[i].key in index && index[nodes[i].key] == nodes[i])
    && (forall k :: k in index ==> index[k].key == k && index[k] in nodes)
    && (forall i, j :: 0 <= i < j < |nodes| ==> nodes[i] != nodes[j])
  }

  lemma {:induction false} IndexedWithout(nodes: seq<Node>, index: map<CacheKey, Node>, p: nat)
    requires Indexed(nodes, index) && p < |nodes|
    ensures Indexed(Without(nodes, p), index - {nodes[p].key})
  {
    var rest, index' := Without(nodes, p), index - {nodes[p].key};
    forall k | k in index'
      ensures index'[k] in rest
    {
      var i :| 0 <= i < |nodes| && nodes[i] == index[k];
      assert rest[if i < p then i else i - 1] == nodes[i];
    }
  }

  lemma {:induction false} IndexedFront(nodes: seq<Node>, index: map<CacheKey, Node>, p: nat)
    requires Indexed(nodes, index) && p < |nodes|
    ensures Indexed([nodes[p]] + Without(nodes, p), index)
  {
    IndexedWithout(nodes, index, p);
    IndexedCons(Without(nodes, p), index - {nodes[p].key}, nodes[p]);
    assert (index - {nodes[p].key})[nodes[p].key := nodes[p]] == index;
  }

  lemma {:induction false} IndexedCons(nodes: seq<Node>, index: map<CacheKey, Node>, node: Node)
    requires Indexed(nodes, index) && node.key !in index
    ensures Indexed([node] + nodes, index[node.key := node])
  {
    var nodes' := [node] + nodes;
    forall k | k in index
      ensures index[k] in nodes'
    {
      var i :| 0 <= i < |nodes| && nodes[i] == index[k];
      assert nodes'[i + 1] == nodes[i];
    }
    assert nodes'[0] == node;
  }

  lemma {:induction false} AbsentKey(nodes: seq<Node>, index: map<CacheKey, Node>, k: CacheKey)
    requires Indexed(nodes, index) && k !in index
    ensures Position(Items(nodes), k) == |nodes|
  {
  }

  lemma {:induction false} PresentKey(nodes: seq<Node>, index: map<CacheKey, Node>, k: CacheKey)
    requires Indexed(nodes, index) && k in index
    ensures index[k] in nodes && index[k].key == k
  {
  }

  lemma {:induction false} FitStep(l: seq<Item>, cap: nat)
    ensures TotalBytes([]) == 0
    ensures Fit(l, cap) == if TotalBytes(l) <= cap then l else Fit(Without(l, |l| - 1), cap)
  {
    if l != [] {
      assert Without(l, |l| - 1) == l[..|l| - 1];
    }
  }

  lemma {:induction false} IndexedDistinct(nodes: seq<Node>, index: map<CacheKey, Node>)
    requires Indexed(nodes, index)
    ensures DistinctKeys(Items(nodes))
  {
  }

  method IndexOf(nodes: seq<Node>, node: Node) returns (p: nat)
    requires node in nodes
    ensures p < |nodes| && nodes[p] == node
  {
    p := 0;
    while nodes[p] != node
      invariant p < |nodes| && node !in nodes[..p]
      decreases |nodes| - p
    {
      p := p + 1;
    }
  }

  class MemoryCacheLRU {
    const capBytes: nat
    var usedBytes: nat
    var lru: seq<Node>
    var index: map<CacheKey, Node>

    ghost function Contents(): (l: seq<Item>)
      reads this, lru
      ensures |l| == |lru|
    {
      Items(lru)
    }

    /** The links are right and the byte count is exact; the count may be over the capacity. */
    ghost predicate Linked()
      reads this, lru
    {
      Indexed(lru, index) && usedBytes == TotalBytes(Contents())
    }

    ghost predicate Valid()
      reads this, lru
    {
      Linked() && usedBytes <= capBytes
    }

    constructor (capBytes: nat)
      ensures Valid() && this.capBytes == capBytes && Contents() == []
    {
      this.capBytes := capBytes;
      usedBytes, lru, index := 0, [], map[];
    }

    /** Take one node out of list, map and count. */
    method Erase(p: nat)
      requires Linked() && p < |lru|
      modifies this
      ensures Linked() && Contents() == Without(old(Contents()), p) && |lru| == |old(lru)| - 1
      ensures forall n :: n in lru ==> n in old(lru)
      ensures usedBytes <= old(usedBytes)
    {
      hide Indexed, TotalBytes;
      var node := lru[p];
      TotalBytesSplit(Contents(), p);
      ItemsWithout(lru, p);
      IndexedWithout(lru, index, p);
      usedBytes := usedBytes - node.entry.Bytes();
      index := index - {node.key};
      lru := Without(lru, p);
    }

    method EvictIfNeeded()
      requires Linked()
      modifies this
      ensures Valid() && Contents() == Fit(old(Contents()), capBytes)
      ensures forall n :: n in lru ==> n in old(lru)
    {
      hide Indexed, Fit, TotalBytes;
      while usedBytes > capBytes && lru != []
        invariant Linked() && Fit(Contents(), capBytes) == Fit(old(Contents()), capBytes)
        invariant forall n :: n in lru ==> n in old(lru)
        decreases |lru|
      {
        FitStep(Contents(), capBytes);
        Erase(|lru| - 1);
      }
      FitStep(Contents(), capBytes);
    }

    /** `lru_.splice(lru_.begin(), lru_, it)`: move a node to the front. */
    method Splice(node: Node)
      requires Linked() && node in lru
      modifies this`lru
      ensures Linked() && Contents() == AfterGet(old(Contents()), node.key)
      ensures forall n :: n in lru <==> n in old(lru)
    {
      hide TotalBytes, Indexed, Position, DistinctKeys, Without, AfterGet;
      var p := IndexOf(lru, node);
      IndexedDistinct(lru, index);
      MovedToFront(Contents(), p);
      IndexedFront(lru, index, p);
      FrontMembers(lru, p);
      ItemsFront(lru, p);
      lru := [node] + Without(lru, p);
    }

    method Get(key: CacheKey) returns (r: Option<CachedEntry>)
      requires Valid()
      modifies this
      ensures Valid() && Contents() == AfterGet(old(Contents()), key)
      ensures r == Lookup(old(Contents()), key)
      ensures forall n :: n in lru ==> n in old(lru)
    {
      if key !in index {
        return None;
      }
      var node := index[key];
      Splice(node);
      r := Some(node.entry);
    }

    method Set(key: CacheKey, e: CachedEntry)
      requires Valid()
      modifies this, lru
      ensures Valid() && Contents() == AfterSet(old(Contents()), capBytes, key, e)
      ensures forall n :: n in lru ==> n in old(lru) || fresh(n)
    {
      hide Indexed, Fit, TotalBytes;
      var size := e.Bytes();
      if size > capBytes {
        return;
      }
      if key in index {
        PresentKey(lru, index, key);
        Overwrite(index[key], e);
      } else {
        AbsentKey(lru, index, key);
        var node := new Node(key, e);
        PushFront(node);
      }
      assert usedBytes <= 2 * capBytes;  // the most the counter ever holds
      EvictIfNeeded();
    }

    /** The key is there: count the old entry out and the new one in, and move the node. */
    method Overwrite(node: Node, e: CachedEntry)
      requires Linked() && node in lru
      modifies this, lru
      ensures Linked()
      ensures Contents() == [(node.key, e)] + Without(old(Contents()), Position(old(Contents()), node.key))
      ensures usedBytes <= old(usedBytes) + e.Bytes()
      ensures forall n :: n in lru <==> n in old(lru)
    {
      hide TotalBytes;
      var p := IndexOf(lru, node);
      ghost var l := Contents();
      IndexedDistinct(lru, index);
      PositionIs(l, p);
      TotalBytesSplit(l, p);
      usedBytes := usedBytes - node.entry.Bytes();
      node.entry := e;
      usedBytes := usedBytes + e.Bytes();
      assert Contents() == l[p := (node.key, e)];
      assert Without(Contents(), p) == Without(l, p);
      PositionIs(Contents(), p);
      TotalBytesSplit(Contents(), p);
      Splice(node);
    }

    method PushFront(node: Node)
      requires Linked() && node.key !in index
      modifies this
      ensures Linked() && Contents() == [(node.key, node.entry)] + old(Contents())
      ensures lru == [node] + old(lru)
      ensures usedBytes == old(usedBytes) + node.entry.Bytes()
    {
      hide TotalBytes, Indexed;
      IndexedCons(lru, index, node);
      ItemsCons(node, lru);
      TotalBytesConcat([(node.key, node.entry)], Contents());
      TotalBytesOne((node.key, node.entry));
      lru := [node] + lru;
      index := index[node.key := node];
      usedBytes := usedBytes + node.entry.Bytes();
    }

    method Del(key: CacheKey)
      requires Valid()
      modifies this
      ensures Valid() && Contents() == AfterDel(old(Contents()), key)
      ensures forall n :: n in lru ==> n in old(lru)
    {
      hide Indexed, TotalBytes;
      if key !in index {
        AbsentKey(lru, index, key);
        return;
      }
      PresentKey(lru, index, key);
      var p := IndexOf(lru, index[key]);
      IndexedDistinct(lru, index);
      PositionIs(Contents(), p);
      Erase(p);
    }

    /** The walk's turn at one node: erase it or step over it. */
    method PurgeOne(i: nat, prefix: string) returns (next: nat)
      requires Valid() && i < |lru|
      modifies this
      ensures Valid() && forall n :: n in lru ==> n in old(lru)
      ensures var l := old(Contents());
              if prefix <= l[i].0.pathAndQuery then next == i && Contents() == Without(l, i)
              else next == i + 1 && Contents() == l
    {
      hide Linked, Without;
      if prefix <= lru[i].key.pathAndQuery {
        Erase(i);
        next := i;
      } else {
        next := i + 1;
      }
    }

    method PurgePrefix(prefix: string)
      requires Valid()
      modifies this
      ensures Valid() && Contents() == AfterPurge(old(Contents()), prefix)
      ensures forall n :: n in lru ==> n in old(lru)
    {
      hide Valid, Contents, AfterPurge, Without, Purging;
      var i: nat := 0;
      ghost var l := Contents();
      ghost var done: nat := 0;
      PurgeEnds(l, i, l, done, prefix);
      while i < |lru|
        invariant Valid() && Purging(Contents(), i, l, done, prefix)
        invariant forall n :: n in lru ==> n in old(lru)
        decreases |l| - done
      {
        PurgeStep(Contents(), i, l, done, prefix);
        i := PurgeOne(i, prefix);
        done := done + 1;
      }
      PurgeEnds(Contents(), i, l, done, prefix);
    }
  }
}
