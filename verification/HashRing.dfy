/** The consistent hash ring (HashRing.h): virtual nodes on a circle of 64-bit hash values, and
    the shard that the next node on the circle belongs to. */
module HashRings {
  import opened Text
  import opened Hashing

  /** The hash as a point of the ring. */
  function Fnv(s: string): nat {
    FnvFrom(FNV_OFFSET, s, 0)
  }

  /** The hash depends on every byte of the key, and on `a` it is this number. */
  lemma {:induction false} KeysHashApart(s: string, t: string, i: nat)
    requires i < |s| == |t| && s[i] as int % 256 != t[i] as int % 256
    requires forall j :: 0 <= j < |s| && j != i ==> s[j] == t[j]
    ensures Fnv(s) != Fnv(t)
    ensures Fnv("a") == 4953267810257967366
  {
    hide FnvFrom;
    OneByteMatters(FNV_OFFSET, s, t, i, 0);
    HashOfA();
  }

  method Hash(s: string) returns (h: nat)
    ensures h == Fnv(s)
  {
    h := FnvLoop(FNV_OFFSET, s);
  }

  type Ring = map<nat, int>

  function NodeKey(shard: nat, replica: nat): string {
    "node" + Decimal(shard) + "#" + Decimal(replica)
  }

  /** The first `r` virtual nodes of a shard put on the ring, over whatever is there. */
  function AddNodes(ring: Ring, h: string -> nat, shard: nat, r: nat): Ring {
    if r == 0 then ring else AddNodes(ring, h, shard, r - 1)[h(NodeKey(shard, r - 1)) := shard]
  }

  function Build(h: string -> nat, replicas: nat, shards: nat): Ring {
    if shards == 0 then map[] else AddNodes(Build(h, replicas, shards - 1), h, shards - 1, replicas)
  }

  /** `p` is the first point of the ring at or after `x`. */
  ghost predicate FirstFrom(ring: Ring, x: int, p: nat) {
    p in ring && x <= p && forall q :: q in ring && x <= q ==> p <= q
  }

  lemma {:induction false} FirstFromExists(ring: Ring, x: int, q: nat) returns (p: nat)
    requires q in ring && x <= q
    ensures FirstFrom(ring, x, p)
    decreases q - x
  {
    if FirstFrom(ring, x, q) {
      p := q;
    } else {
      var q' :| q' in ring && x <= q' < q;
      p := FirstFromExists(ring, x, q');
    }
  }

  /** `pick`: the shard of the first point at or after the key's hash, or of the first point of
      all; shard 0 on an empty ring. */
  ghost function Pick(ring: Ring, x: nat): int {
    if ring == map[] then 0
    else if exists q :: q in ring && x <= q then
      assert exists p :: FirstFrom(ring, x, p) by {
        var q :| q in ring && x <= q;
        var p := FirstFromExists(ring, x, q);
      }
      var p :| FirstFrom(ring, x, p);
      ring[p]
    else
      assert exists p :: FirstFrom(ring, 0, p) by {
        var q :| q in ring;
        var p := FirstFromExists(ring, 0, q);
      }
      var p :| FirstFrom(ring, 0, p);
      ring[p]
  }

  class HashRing {
    var ring: Ring
    const replicas: int

    constructor (replicas: int)
      ensures this.replicas == replicas && ring == map[]
    {
      this.replicas := replicas;
      ring := map[];
    }

    method BuildRing(shards: int)
      modifies this
      ensures ring == Build(Fnv, Size(replicas), Size(shards))
    {
      hide Fnv, NodeKey;
      ring := map[];
      var s := 0;
      while s < shards
        invariant 0 <= s <= Size(shards) && ring == Build(Fnv, Size(replicas), s)
      {
        var r := 0;
        while r < replicas
          invariant 0 <= r <= Size(replicas)
          invariant ring == AddNodes(Build(Fnv, Size(replicas), s), Fnv, s, r)
        {
          var point := Hash(NodeKey(s, r));
          ring := ring[point := s];
          r := r + 1;
        }
        s := s + 1;
      }
    }

    method PickShard(key: string) returns (shard: int)
      ensures shard == Pick(ring, Fnv(key))
    {
      hide Fnv, Pick, FirstFrom;
      var x := Hash(key);
      if ring == map[] {
        PickEmpty(x);
        return 0;
      }
      var it := LowerBound(ring, x);
      if it.None? {
        it := LowerBound(ring, 0);  // `begin`
      }
      PickIs(ring, x, it.value);
      shard := ring[it.value];
    }
  }

  /** `std::map::lower_bound`: the first point at or after `x`, if there is one. */
  method LowerBound(ring: Ring, x: nat) returns (it: Option<nat>)
    ensures it.None? ==> forall q :: q in ring ==> q < x
    ensures it.Some? ==> it.value in ring && FirstFrom(ring, x, it.value)
  {
    var above := set q | q in ring && x <= q;
    if above == {} {
      assert forall q :: q in ring && x <= q ==> q in above;
      return None;
    }
    ghost var some :| some in above;
    ghost var least := FirstFromExists(ring, x, some);
    var p: nat :| p in ring && x <= p && forall q :: q in ring && x <= q ==> p <= q;
    it := Some(p);
  }

  /** A loop bound: a negative count runs no turns. */
  function Size(n: int): (r: nat)
    ensures n >= 0 ==> r == n
    ensures n < 0 ==> r == 0
  {
    if n < 0 then 0 else n
  }

  // ----- what the ring is

  /** One of the `r` virtual nodes of a shard is hashed to `p`. */
  ghost predicate NodeAt(h: string -> nat, r: nat, shard: nat, p: nat) {
    exists i :: 0 <= i < r && h("node" + Decimal(shard) + "#" + Decimal(i)) == p
  }

  lemma {:induction false} AddNodesIs(ring: Ring, h: string -> nat, shard: nat, r: nat, p: nat)
    ensures var ring' := AddNodes(ring, h, shard, r);
            && (p in ring' <==> p in ring || NodeAt(h, r, shard, p))
            && (p in ring' ==> ring'[p] == if NodeAt(h, r, shard, p) then shard else ring[p])
    decreases r
  {
    if r > 0 {
      AddNodesIs(ring, h, shard, r - 1, p);
      var q := h("node" + Decimal(shard) + "#" + Decimal(r - 1));
      if q == p {
        assert NodeAt(h, r, shard, p);
      } else if NodeAt(h, r, shard, p) {
        var i :| 0 <= i < r && h("node" + Decimal(shard) + "#" + Decimal(i)) == p;
        assert i != r - 1;
        assert NodeAt(h, r - 1, shard, p);
      } else if i :| 0 <= i < r - 1 && h("node" + Decimal(shard) + "#" + Decimal(i)) == p {
        assert NodeAt(h, r, shard, p);
      }
    }
  }

  /** The ring holds exactly the points that some node of some shard is hashed to, and each belongs to
      the last shard that has a node there. */
  lemma {:induction false} RingIs(h: string -> nat, replicas: nat, m: nat, p: nat)
    ensures var ring := Build(h, replicas, m);
            && (p in ring <==> exists s :: 0 <= s < m && NodeAt(h, replicas, s, p))
            && (p in ring ==>
                  && 0 <= ring[p] < m && NodeAt(h, replicas, ring[p], p)
                  && forall s :: ring[p] < s < m ==> !NodeAt(h, replicas, s, p))
    decreases m
  {
    hide NodeAt;
    if m > 0 {
      RingIs(h, replicas, m - 1, p);
      AddNodesIs(Build(h, replicas, m - 1), h, m - 1, replicas, p);
    }
  }

  /** Every node has a name of its own, so that only the hash can make nodes collide. */
  lemma {:induction false} NodeNamesDiffer(s: nat, r: nat, s': nat, r': nat)
    ensures NodeKey(s, r) == NodeKey(s', r') <==> s == s' && r == r'
  {
    hide Decimal, DigitsValue, Find;
    if NodeKey(s, r) == NodeKey(s', r') {
      NodeKeyParts(s, r);
      NodeKeyParts(s', r');
      assert DigitsValue(Decimal(s)) == DigitsValue(Decimal(s'));
      assert DigitsValue(Decimal(r)) == DigitsValue(Decimal(r'));
    }
  }

  lemma {:induction false} NodeKeyParts(s: nat, r: nat)
    ensures var k, end := NodeKey(s, r), Find(NodeKey(s, r), '#', 4);
            4 <= end < |k| && k[4..end] == Decimal(s) && k[end + 1..] == Decimal(r)
  {
    hide Decimal, DigitsValue;
    var d, later := Decimal(s), "#" + Decimal(r);
    assert '#' !in d;
    assert NodeKey(s, r) == "node" + (d + later);
    PieceEnds("node", d, later, '#');
    assert later[1..] == Decimal(r);
  }

  /** What `pick` returns on a ring that is not empty: the owner of the first point at or after the
      key's hash, or, if there is none, of the first point of all. */
  lemma {:induction false} PickIsFirstFrom(ring: Ring, x: nat) returns (p: nat)
    requires ring != map[]
    ensures p in ring && Pick(ring, x) == ring[p]
    ensures if x <= p then forall q :: q in ring && x <= q ==> p <= q
            else forall q :: q in ring ==> p <= q < x
  {
    hide Pick;
    p := PickPoint(ring, x);
    PickIs(ring, x, p);
  }

  // ----- growing the ring

  /** Every node of the small ring is still on the large one, and whatever is new or overwritten
      there belongs to a shard from n on. */
  ghost predicate GrowsBy(small: Ring, large: Ring, n: int) {
    && (forall p :: p in small ==> p in large)
    && (forall p :: p in large ==> large[p] >= n || (p in small && small[p] == large[p]))
  }

  lemma {:induction false} AddNodesGrows(small: Ring, ring: Ring, h: string -> nat, shard: nat, r: nat, n: nat)
    requires GrowsBy(small, ring, n) && n <= shard
    ensures GrowsBy(small, AddNodes(ring, h, shard, r), n)
    decreases r
  {
    if r > 0 {
      AddNodesGrows(small, ring, h, shard, r - 1, n);
    }
  }

  lemma {:induction false} BuildGrows(h: string -> nat, replicas: nat, n: nat, m: nat)
    requires n <= m
    ensures GrowsBy(Build(h, replicas, n), Build(h, replicas, m), n)
    decreases m
  {
    if n < m {
      BuildGrows(h, replicas, n, m - 1);
      AddNodesGrows(Build(h, replicas, n), Build(h, replicas, m - 1), h, m - 1, replicas, n);
    }
  }

  lemma {:induction false} PickIs(ring: Ring, x: nat, p: nat)
    requires FirstFrom(ring, x, p) || (FirstFrom(ring, 0, p) && forall q :: q in ring ==> q < x)
    ensures Pick(ring, x) == ring[p]
  {
  }

  lemma {:induction false} PickPoint(ring: Ring, x: nat) returns (p: nat)
    requires ring != map[]
    ensures FirstFrom(ring, x, p) || (FirstFrom(ring, 0, p) && forall q :: q in ring ==> q < x)
  {
    if exists q :: q in ring && x <= q {
      var q :| q in ring && x <= q;
      p := FirstFromExists(ring, x, q);
    } else {
      var q :| q in ring;
      p := FirstFromExists(ring, 0, q);
    }
  }

  /** On any ring that grows from another, the picked point's owner changes only to a new shard. */
  lemma {:induction false} PickMovesToNew(small: Ring, large: Ring, x: nat, n: nat)
    requires GrowsBy(small, large, n) && small != map[]
    ensures Pick(large, x) == Pick(small, x) || Pick(large, x) >= n
  {
    hide Pick;
    var p := PickPoint(small, x);
    var q := PickPoint(large, x);
    PickIs(small, x, p);
    PickIs(large, x, q);
    if large[q] < n {
      assert q in small;
      PickIs(small, x, q);
    }
  }

  lemma {:induction false} BuildOwners(h: string -> nat, replicas: nat, m: nat)
    ensures forall p :: p in Build(h, replicas, m) ==> 0 <= Build(h, replicas, m)[p] < m
    ensures replicas > 0 && m > 0 ==> Build(h, replicas, m) != map[]
    decreases m
  {
    if m > 0 {
      BuildOwners(h, replicas, m - 1);
      AddNodesOwners(Build(h, replicas, m - 1), h, m - 1, replicas, m);
    }
  }

  lemma {:induction false} AddNodesOwners(ring: Ring, h: string -> nat, shard: nat, r: nat, m: nat)
    requires shard < m && forall p :: p in ring ==> 0 <= ring[p] < m
    ensures forall p :: p in AddNodes(ring, h, shard, r) ==> 0 <= AddNodes(ring, h, shard, r)[p] < m
    ensures r > 0 ==> h(NodeKey(shard, r - 1)) in AddNodes(ring, h, shard, r)
    decreases r
  {
    if r > 0 {
      AddNodesOwners(ring, h, shard, r - 1, m);
    }
  }

  /** A pick is a shard of the ring. */
  lemma {:induction false} PickInRange(h: string -> nat, replicas: nat, m: nat, key: string)
    ensures m > 0 ==> 0 <= Pick(Build(h, replicas, m), h(key)) < m
    ensures m == 0 || replicas == 0 ==> Pick(Build(h, replicas, m), h(key)) == 0
  {
    hide Pick;
    var ring := Build(h, replicas, m);
    BuildOwners(h, replicas, m);
    if ring != map[] {
      var p := PickPoint(ring, h(key));
      PickIs(ring, h(key), p);
    } else {
      PickEmpty(h(key));
    }
    if replicas == 0 {
      NoReplicas(h, m);
    }
  }

  lemma {:induction false} PickEmpty(x: nat)
    ensures Pick(map[], x) == 0
  {
  }

  lemma {:induction false} NoReplicas(h: string -> nat, m: nat)
    ensures Build(h, 0, m) == map[]
    decreases m
  {
    if m > 0 {
      NoReplicas(h, m - 1);
    }
  }

  /** Minimal remapping: growing from n shards to m moves a key only to one of the new shards, for
      every hash function, collisions included. */
  lemma {:induction false} OnlyNewShardsGainKeys(h: string -> nat, replicas: nat, n: nat, m: nat, key: string)
    requires n <= m
    ensures var before, after := Pick(Build(h, replicas, n), h(key)), Pick(Build(h, replicas, m), h(key));
            after == before || after >= n
  {
    hide Pick;
    BuildGrows(h, replicas, n, m);
    PickInRange(h, replicas, n, key);
    PickInRange(h, replicas, m, key);
    BuildOwners(h, replicas, n);
    if n > 0 && replicas > 0 {
      PickMovesToNew(Build(h, replicas, n), Build(h, replicas, m), h(key), n);
    }
  }

  /** The other way round: shrinking moves only the keys of the shards that go. */
  lemma {:induction false} OnlyLostShardsLoseKeys(h: string -> nat, replicas: nat, n: nat, m: nat, key: string)
    requires n <= m && Pick(Build(h, replicas, m), h(key)) < n
    ensures Pick(Build(h, replicas, n), h(key)) == Pick(Build(h, replicas, m), h(key))
  {
    hide Pick;
    OnlyNewShardsGainKeys(h, replicas, n, m, key);
  }
}
