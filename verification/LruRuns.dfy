/** What the LRU store guarantees over whole runs of operations. */
module LruRuns {
  import opened Text
  import opened LruCache

  datatype Op = Get(key: CacheKey) | Set(key: CacheKey, entry: CachedEntry) | Del(key: CacheKey) | Purge(prefix: string)

  function Apply(l: seq<Item>, cap: nat, op: Op): seq<Item> {
    match op
    case Get(k) => AfterGet(l, k)
    case Set(k, e) => AfterSet(l, cap, k, e)
    case Del(k) => AfterDel(l, k)
    case Purge(prefix) => AfterPurge(l, prefix)
  }

  function Run(l: seq<Item>, cap: nat, ops: seq<Op>): seq<Item>
    decreases |ops|
  {
    if ops == [] then l else Run(Apply(l, cap, ops[0]), cap, ops[1..])
  }

  /** What every operation keeps: no key twice, and the bytes within the capacity. */
  ghost predicate Good(l: seq<Item>, cap: nat) {
    DistinctKeys(l) && TotalBytes(l) <= cap
  }

  // ----- eviction

  /** The updated recency list that `set` then cuts down. */
  function Updated(l: seq<Item>, k: CacheKey, e: CachedEntry): seq<Item> {
    [(k, e)] + Without(l, Position(l, k))
  }

  lemma {:induction false} FitIsPrefix(l: seq<Item>, cap: nat)
    ensures Fit(l, cap) <= l && TotalBytes(Fit(l, cap)) <= cap
    decreases |l|
  {
    if TotalBytes(l) > cap {
      FitIsPrefix(l[..|l| - 1], cap);
    }
  }

  lemma {:induction false} FitIsLongest(l: seq<Item>, cap: nat, n: nat)
    requires n <= |l| && TotalBytes(l[..n]) <= cap
    ensures n <= |Fit(l, cap)|
    decreases |l|
  {
    if TotalBytes(l) > cap {
      assert l[..|l|] == l;
      assert l[..|l| - 1][..n] == l[..n];
      FitIsLongest(l[..|l| - 1], cap, n);
    }
  }

  /** Eviction is exact: an accepted `set` leaves the longest prefix of the updated list that
      fits the capacity, and the entry just written is in it. */
  lemma {:induction false} EvictionIsExact(l: seq<Item>, cap: nat, k: CacheKey, e: CachedEntry)
    requires e.Bytes() <= cap
    ensures var u, r := Updated(l, k, e), AfterSet(l, cap, k, e);
            && r <= u && TotalBytes(r) <= cap
            && (forall n :: |r| < n <= |u| ==> TotalBytes(u[..n]) > cap)
            && r != [] && r[0] == (k, e)
  {
    hide TotalBytes;
    var u, r := Updated(l, k, e), AfterSet(l, cap, k, e);
    FitIsPrefix(u, cap);
    forall n | |r| < n <= |u|
      ensures TotalBytes(u[..n]) > cap
    {
      if TotalBytes(u[..n]) <= cap {
        FitIsLongest(u, cap, n);
      }
    }
    TotalBytesOne((k, e));
    assert u[..1] == [(k, e)];
    FitIsLongest(u, cap, 1);
  }

  // ----- the invariant

  lemma {:induction false} PurgeItems(l: seq<Item>, prefix: string)
    ensures forall x :: x in AfterPurge(l, prefix) <==> x in l && !(prefix <= x.0.pathAndQuery)
    decreases |l|
  {
    if l != [] {
      PurgeItems(l[..|l| - 1], prefix);
      assert l == l[..|l| - 1] + [l[|l| - 1]];
    }
  }

  lemma {:induction false} PurgeDistinct(l: seq<Item>, prefix: string)
    requires DistinctKeys(l)
    ensures DistinctKeys(AfterPurge(l, prefix))
    decreases |l|
  {
    if l != [] {
      var front, last := l[..|l| - 1], l[|l| - 1];
      PurgeDistinct(front, prefix);
      PurgeItems(front, prefix);
      var kept := AfterPurge(front, prefix);
      forall i | 0 <= i < |kept|
        ensures kept[i].0 != last.0
      {
        assert kept[i] in front;
      }
    }
  }

  lemma {:induction false} PurgeBytes(l: seq<Item>, prefix: string)
    ensures TotalBytes(AfterPurge(l, prefix)) <= TotalBytes(l)
    decreases |l|
  {
    if l != [] {
      var kept := AfterPurge(l[..|l| - 1], prefix);
      PurgeBytes(l[..|l| - 1], prefix);
      assert (kept + [l[|l| - 1]])[..|kept|] == kept;
    }
  }

  lemma {:induction false} WithoutGood(l: seq<Item>, p: nat)
    ensures DistinctKeys(l) ==> DistinctKeys(Without(l, p))
    ensures TotalBytes(Without(l, p)) <= TotalBytes(l)
  {
    if p < |l| {
      TotalBytesSplit(l, p);
    }
  }

  lemma {:induction false} FrontGood(l: seq<Item>, x: Item)
    requires DistinctKeys(l)
    ensures var u := [x] + Without(l, Position(l, x.0));
            DistinctKeys(u) && TotalBytes(u) == x.1.Bytes() + TotalBytes(Without(l, Position(l, x.0)))
  {
    var rest := Without(l, Position(l, x.0));
    TotalBytesConcat([x], rest);
    TotalBytesOne(x);
    if Position(l, x.0) < |l| {
      PositionIs(l, Position(l, x.0));
    }
  }

  lemma {:induction false} ApplyKeepsGood(l: seq<Item>, cap: nat, op: Op)
    requires Good(l, cap)
    ensures Good(Apply(l, cap, op), cap)
  {
    hide TotalBytes;
    match op
    case Get(k) =>
      var p := Position(l, k);
      if p < |l| {
        FrontGood(l, l[p]);
        TotalBytesSplit(l, p);
      }
    case Set(k, e) =>
      if e.Bytes() <= cap {
        FrontGood(l, (k, e));
        FitIsPrefix(Updated(l, k, e), cap);
      }
    case Del(k) =>
      WithoutGood(l, Position(l, k));
    case Purge(prefix) =>
      PurgeDistinct(l, prefix);
      PurgeBytes(l, prefix);
  }

  // ----- refinement of an unbounded map

  /** The same operations on a map that never forgets, but ignores oversized entries too. */
  function Reference(m: map<CacheKey, CachedEntry>, cap: nat, op: Op): map<CacheKey, CachedEntry> {
    match op
    case Get(_) => m
    case Set(k, e) => if e.Bytes() > cap then m else m[k := e]
    case Del(k) => m - {k}
    case Purge(prefix) => map k | k in m && !(prefix <= k.pathAndQuery) :: m[k]
  }

  function ReferenceRun(m: map<CacheKey, CachedEntry>, cap: nat, ops: seq<Op>): map<CacheKey, CachedEntry>
    decreases |ops|
  {
    if ops == [] then m else ReferenceRun(Reference(m, cap, ops[0]), cap, ops[1..])
  }

  ghost predicate Agrees(l: seq<Item>, m: map<CacheKey, CachedEntry>) {
    forall x :: x in l ==> x.0 in m && m[x.0] == x.1
  }

  lemma {:induction false} ApplyAgrees(l: seq<Item>, m: map<CacheKey, CachedEntry>, cap: nat, op: Op)
    requires DistinctKeys(l) && Agrees(l, m)
    ensures Agrees(Apply(l, cap, op), Reference(m, cap, op))
  {
    match op
    case Get(k) =>
    case Set(k, e) =>
      if e.Bytes() <= cap {
        var u := Updated(l, k, e);
        FitIsPrefix(u, cap);
        UpdatedItems(l, k, e);
        forall x | x in Fit(u, cap)
          ensures x in u
        {
        }
      }
    case Del(k) =>
      DelItems(l, k);
    case Purge(prefix) =>
      PurgeItems(l, prefix);
  }

  lemma {:induction false} UpdatedItems(l: seq<Item>, k: CacheKey, e: CachedEntry)
    requires DistinctKeys(l)
    ensures forall x :: x in Updated(l, k, e) ==> x == (k, e) || (x in l && x.0 != k)
  {
    DelItems(l, k);
  }

  lemma {:induction false} DelItems(l: seq<Item>, k: CacheKey)
    requires DistinctKeys(l)
    ensures forall x :: x in AfterDel(l, k) <==> x in l && x.0 != k
  {
    var p := Position(l, k);
    var r := AfterDel(l, k);
    forall x | x in l && x.0 != k
      ensures x in r
    {
      var i :| 0 <= i < |l| && l[i] == x;
      assert r[if i < p then i else i - 1] == x;
    }
  }

  /** Every hit of a run is the value the unbounded map holds. */
  lemma {:induction false} RunRefines(l: seq<Item>, m: map<CacheKey, CachedEntry>, cap: nat, ops: seq<Op>)
    requires Good(l, cap) && Agrees(l, m)
    ensures Good(Run(l, cap, ops), cap) && Agrees(Run(l, cap, ops), ReferenceRun(m, cap, ops))
    ensures forall k :: var hit := Lookup(Run(l, cap, ops), k);
                        hit.Some? ==> k in ReferenceRun(m, cap, ops) && hit.value == ReferenceRun(m, cap, ops)[k]
    decreases |ops|
  {
    if ops != [] {
      ApplyKeepsGood(l, cap, ops[0]);
      ApplyAgrees(l, m, cap, ops[0]);
      RunRefines(Apply(l, cap, ops[0]), Reference(m, cap, ops[0]), cap, ops[1..]);
    }
  }

  // ----- recency order

  /** The key an operation uses, with the size of its entry: a hit or an accepted `set`. */
  function Touch(l: seq<Item>, cap: nat, op: Op): Option<(CacheKey, nat)> {
    match op
    case Get(k) =>
      var hit := Lookup(l, k);
      if hit.Some? then Some((k, hit.value.Bytes())) else None
    case Set(k, e) => if e.Bytes() > cap then None else Some((k, e.Bytes()))
    case Del(_) => None
    case Purge(_) => None
  }

  /** When each key was last used: operation number `now` stamps the key it touches. */
  function Stamp(stamps: map<CacheKey, nat>, l: seq<Item>, cap: nat, op: Op, now: nat): map<CacheKey, nat> {
    var t := Touch(l, cap, op);
    if t.Some? then stamps[t.value.0 := now] else stamps
  }

  function StampRun(stamps: map<CacheKey, nat>, l: seq<Item>, cap: nat, ops: seq<Op>, now: nat): map<CacheKey, nat>
    decreases |ops|
  {
    if ops == [] then stamps
    else StampRun(Stamp(stamps, l, cap, ops[0], now), Apply(l, cap, ops[0]), cap, ops[1..], now + 1)
  }

  /** The list is in order of last use, most recent first. */
  ghost predicate InOrder(l: seq<Item>, stamps: map<CacheKey, nat>, now: nat) {
    && (forall i :: 0 <= i < |l| ==> l[i].0 in stamps && stamps[l[i].0] < now)
    && (forall i, j :: 0 <= i < j < |l| ==> stamps[l[i].0] > stamps[l[j].0])
  }

  lemma {:induction false} WithoutInOrder(l: seq<Item>, p: nat, stamps: map<CacheKey, nat>, now: nat)
    requires InOrder(l, stamps, now)
    ensures InOrder(Without(l, p), stamps, now)
  {
    var r := Without(l, p);
    if p < |l| {
      assert forall i :: 0 <= i < |r| ==> r[i] == l[if i < p then i else i + 1];
    }
  }

  lemma {:induction false} FrontInOrder(l: seq<Item>, x: Item, stamps: map<CacheKey, nat>, now: nat)
    requires InOrder(l, stamps, now) && forall i :: 0 <= i < |l| ==> l[i].0 != x.0
    ensures InOrder([x] + l, stamps[x.0 := now], now + 1)
  {
  }

  lemma {:induction false} PurgeInOrder(l: seq<Item>, prefix: string, stamps: map<CacheKey, nat>, now: nat)
    requires InOrder(l, stamps, now)
    ensures InOrder(AfterPurge(l, prefix), stamps, now)
    decreases |l|
  {
    if l != [] {
      var front, last := l[..|l| - 1], l[|l| - 1];
      PurgeInOrder(front, prefix, stamps, now);
      PurgeItems(front, prefix);
      var kept := AfterPurge(front, prefix);
      forall i | 0 <= i < |kept|
        ensures stamps[kept[i].0] > stamps[last.0]
      {
        assert kept[i] in front;
      }
    }
  }

  lemma {:induction false} UseInOrder(l: seq<Item>, x: Item, stamps: map<CacheKey, nat>, now: nat)
    requires DistinctKeys(l) && InOrder(l, stamps, now)
    ensures InOrder([x] + AfterDel(l, x.0), stamps[x.0 := now], now + 1)
  {
    WithoutInOrder(l, Position(l, x.0), stamps, now);
    DelItems(l, x.0);
    var rest := AfterDel(l, x.0);
    assert forall i :: 0 <= i < |rest| ==> rest[i] in rest;
    FrontInOrder(rest, x, stamps, now);
  }

  lemma {:induction false} PrefixInOrder(r: seq<Item>, l: seq<Item>, stamps: map<CacheKey, nat>, now: nat)
    requires InOrder(l, stamps, now) && r <= l
    ensures InOrder(r, stamps, now) && InOrder(r, stamps, now + 1)
  {
  }

  lemma {:induction false} ApplyInOrder(l: seq<Item>, stamps: map<CacheKey, nat>, cap: nat, op: Op, now: nat)
    requires DistinctKeys(l) && InOrder(l, stamps, now)
    ensures InOrder(Apply(l, cap, op), Stamp(stamps, l, cap, op, now), now + 1)
  {
    hide InOrder, TotalBytes, DistinctKeys;
    PrefixInOrder(l, l, stamps, now);
    match op
    case Get(k) =>
      var p := Position(l, k);
      if p < |l| {
        UseInOrder(l, l[p], stamps, now);
      }
    case Set(k, e) =>
      if e.Bytes() <= cap {
        UseInOrder(l, (k, e), stamps, now);
        FitIsPrefix(Updated(l, k, e), cap);
        PrefixInOrder(AfterSet(l, cap, k, e), Updated(l, k, e), stamps[k := now], now + 1);
      }
    case Del(k) =>
      var r := AfterDel(l, k);
      WithoutInOrder(l, Position(l, k), stamps, now);
      PrefixInOrder(r, r, stamps, now);
    case Purge(prefix) =>
      var r := AfterPurge(l, prefix);
      PurgeInOrder(l, prefix, stamps, now);
      PrefixInOrder(r, r, stamps, now);
  }

  /** True LRU: after any run the list is in order of last use, so `set`, which keeps a prefix,
      always evicts the entries used longest ago. */
  lemma {:induction false} RunInOrder(l: seq<Item>, stamps: map<CacheKey, nat>, cap: nat, ops: seq<Op>, now: nat)
    requires Good(l, cap) && InOrder(l, stamps, now)
    ensures InOrder(Run(l, cap, ops), StampRun(stamps, l, cap, ops, now), now + |ops|)
    decreases |ops|
  {
    if ops != [] {
      var l' := Apply(l, cap, ops[0]);
      ApplyKeepsGood(l, cap, ops[0]);
      ApplyInOrder(l, stamps, cap, ops[0], now);
      RunInOrder(l', Stamp(stamps, l, cap, ops[0], now), cap, ops[1..], now + 1);
    }
  }

  // ----- the working set

  /** The largest size at which each key was used. */
  function Raise(sizes: map<CacheKey, nat>, t: Option<(CacheKey, nat)>): map<CacheKey, nat> {
    match t
    case None => sizes
    case Some((k, n)) => if k in sizes && sizes[k] >= n then sizes else sizes[k := n]
  }

  function SizesRun(sizes: map<CacheKey, nat>, l: seq<Item>, cap: nat, ops: seq<Op>): map<CacheKey, nat>
    decreases |ops|
  {
    if ops == [] then sizes
    else SizesRun(Raise(sizes, Touch(l, cap, ops[0])), Apply(l, cap, ops[0]), cap, ops[1..])
  }

  ghost function Sum(m: map<CacheKey, nat>): nat
    decreases |m|
  {
    if m == map[] then 0
    else
      var k :| k in m;
      m[k] + Sum(m - {k})
  }

  lemma {:induction false} SumSplit(m: map<CacheKey, nat>, k: CacheKey)
    requires k in m
    ensures Sum(m) == m[k] + Sum(m - {k})
    decreases |m|
  {
    var j :| j in m && Sum(m) == m[j] + Sum(m - {j});
    if j != k {
      SumSplit(m - {j}, k);
      SumSplit(m - {k}, j);
      assert m - {j} - {k} == m - {k} - {j};
    }
  }

  lemma {:induction false} RaiseGrows(sizes: map<CacheKey, nat>, t: Option<(CacheKey, nat)>)
    ensures Sum(sizes) <= Sum(Raise(sizes, t))
  {
    if t.Some? {
      var k := t.value.0;
      var raised := Raise(sizes, t);
      SumSplit(raised, k);
      if k in sizes {
        SumSplit(sizes, k);
        assert raised - {k} == sizes - {k};
      } else {
        assert raised - {k} == sizes;
      }
    }
  }

  lemma {:induction false} SizesRunGrows(sizes: map<CacheKey, nat>, l: seq<Item>, cap: nat, ops: seq<Op>)
    ensures Sum(sizes) <= Sum(SizesRun(sizes, l, cap, ops))
    decreases |ops|
  {
    if ops != [] {
      RaiseGrows(sizes, Touch(l, cap, ops[0]));
      SizesRunGrows(Raise(sizes, Touch(l, cap, ops[0])), Apply(l, cap, ops[0]), cap, ops[1..]);
    }
  }

  ghost predicate Within(x: Item, sizes: map<CacheKey, nat>) {
    x.0 in sizes && x.1.Bytes() <= sizes[x.0]
  }

  /** Distinct entries, each within its recorded size, weigh at most the sum of the sizes. */
  lemma {:induction false} BytesWithinSum(l: seq<Item>, sizes: map<CacheKey, nat>)
    requires DistinctKeys(l) && forall x :: x in l ==> Within(x, sizes)
    ensures TotalBytes(l) <= Sum(sizes)
    decreases |l|
  {
    if l != [] {
      var front, last := l[..|l| - 1], l[|l| - 1];
      assert last in l;
      forall x | x in front
        ensures Within(x, sizes - {last.0})
      {
        assert x in l;
      }
      BytesWithinSum(front, sizes - {last.0});
      SumSplit(sizes, last.0);
    }
  }

  /** `k` is in the list, and everything down to it was used since the sizes were first recorded. */
  ghost predicate Covered(l: seq<Item>, sizes: map<CacheKey, nat>, k: CacheKey) {
    Position(l, k) < |l| && forall i :: 0 <= i <= Position(l, k) ==> Within(l[i], sizes)
  }

  /** A covered key survives the cut if the recorded sizes fit the capacity. */
  lemma {:induction false} FitCovered(u: seq<Item>, sizes: map<CacheKey, nat>, cap: nat, k: CacheKey)
    requires DistinctKeys(u) && Covered(u, sizes, k) && Sum(sizes) <= cap
    ensures Covered(Fit(u, cap), sizes, k)
  {
    hide TotalBytes, Sum;
    var p := Position(u, k);
    var head := u[..p + 1];
    BytesWithinSum(head, sizes);
    FitIsLongest(u, cap, p + 1);
    FitIsPrefix(u, cap);
    var r := Fit(u, cap);
    assert r[p] == u[p];
    FitDistinct(u, cap);
    PositionIs(r, p);
  }

  lemma {:induction false} FitDistinct(u: seq<Item>, cap: nat)
    requires DistinctKeys(u)
    ensures DistinctKeys(Fit(u, cap))
  {
    FitIsPrefix(u, cap);
  }

  lemma {:induction false} WithinRaise(x: Item, sizes: map<CacheKey, nat>, t: Option<(CacheKey, nat)>)
    ensures Within(x, sizes) ==> Within(x, Raise(sizes, t))
    ensures t == Some((x.0, x.1.Bytes())) ==> Within(x, Raise(sizes, t))
  {
  }

  lemma {:induction false} CoveredAt(l: seq<Item>, p: nat, sizes: map<CacheKey, nat>)
    requires DistinctKeys(l) && p < |l| && forall i :: 0 <= i <= p ==> Within(l[i], sizes)
    ensures Covered(l, sizes, l[p].0)
  {
    PositionIs(l, p);
  }

  lemma {:induction false} DelCovered(l: seq<Item>, gone: CacheKey, sizes: map<CacheKey, nat>, k: CacheKey)
    requires DistinctKeys(l) && Covered(l, sizes, k) && gone != k
    ensures Covered(AfterDel(l, gone), sizes, k)
  {
    hide TotalBytes;
    var p, q := Position(l, k), Position(l, gone);
    var r := AfterDel(l, gone);
    WithoutGood(l, q);
    var p' := if q < p then p - 1 else p;
    assert r[p'] == l[p];
    forall i | 0 <= i <= p'
      ensures Within(r[i], sizes)
    {
      assert r[i] == l[if i < q then i else i + 1];
    }
    CoveredAt(r, p', sizes);
  }

  lemma {:induction false} ConsCovered(l: seq<Item>, x: Item, sizes: map<CacheKey, nat>, k: CacheKey)
    requires DistinctKeys([x] + l) && Covered(l, sizes, k)
    ensures Covered([x] + l, Raise(sizes, Some((x.0, x.1.Bytes()))), k)
  {
    hide Raise;
    var t, u, p := Some((x.0, x.1.Bytes())), [x] + l, Position(l, k);
    WithinRaise(x, sizes, t);
    forall i | 0 < i <= p + 1
      ensures Within(u[i], Raise(sizes, t))
    {
      WithinRaise(l[i - 1], sizes, t);
    }
    assert u[p + 1] == l[p];
    CoveredAt(u, p + 1, Raise(sizes, t));
  }

  /** Using any key keeps `k` covered: it moves at most one place down, behind a recorded key. */
  lemma {:induction false} FrontCovered(l: seq<Item>, x: Item, sizes: map<CacheKey, nat>, k: CacheKey)
    requires DistinctKeys(l) && (Covered(l, sizes, k) || x.0 == k)
    ensures var u := [x] + Without(l, Position(l, x.0));
            DistinctKeys(u) && Covered(u, Raise(sizes, Some((x.0, x.1.Bytes()))), k)
  {
    hide Raise, Covered, TotalBytes;
    FrontGood(l, x);
    if x.0 == k {
      WithinRaise(x, sizes, Some((x.0, x.1.Bytes())));
      CoveredAt([x] + Without(l, Position(l, x.0)), 0, Raise(sizes, Some((x.0, x.1.Bytes()))));
    } else {
      DelCovered(l, x.0, sizes, k);
      ConsCovered(AfterDel(l, x.0), x, sizes, k);
    }
  }

  lemma {:induction false} PurgeCovered(l: seq<Item>, prefix: string, sizes: map<CacheKey, nat>, k: CacheKey)
    requires DistinctKeys(l) && Covered(l, sizes, k) && !(prefix <= k.pathAndQuery)
    ensures Covered(AfterPurge(l, prefix), sizes, k)
    decreases |l|
  {
    hide TotalBytes;
    var p, n := Position(l, k), |l| - 1;
    var front := l[..n];
    var kept, r := AfterPurge(front, prefix), AfterPurge(l, prefix);
    PurgeDistinct(l, prefix);
    if p < n {
      CoveredAt(front, p, sizes);
      PurgeCovered(front, prefix, sizes, k);
      var p' := Position(kept, k);
      assert forall i :: 0 <= i <= p' ==> r[i] == kept[i];
      CoveredAt(r, p', sizes);
    } else {
      PurgeItems(front, prefix);
      forall i | 0 <= i < |kept|
        ensures Within(kept[i], sizes)
      {
        assert kept[i] in front;
      }
      CoveredAt(r, |kept|, sizes);
    }
  }

  /** The operations that take a key out on purpose. */
  predicate Removes(op: Op, k: CacheKey) {
    op == Del(k) || (op.Purge? && op.prefix <= k.pathAndQuery)
  }

  lemma {:induction false} ApplyCovered(l: seq<Item>, cap: nat, op: Op, sizes: map<CacheKey, nat>, k: CacheKey)
    requires DistinctKeys(l) && Covered(l, sizes, k) && !Removes(op, k)
    requires Sum(Raise(sizes, Touch(l, cap, op))) <= cap
    ensures Covered(Apply(l, cap, op), Raise(sizes, Touch(l, cap, op)), k)
  {
    hide Covered, Raise, Sum, TotalBytes;
    match op
    case Get(other) =>
      var q := Position(l, other);
      if q < |l| {
        FrontCovered(l, l[q], sizes, k);
      } else {
        RaiseNone(sizes);
      }
    case Set(other, e) =>
      if e.Bytes() <= cap {
        FrontCovered(l, (other, e), sizes, k);
        FitCovered(Updated(l, other, e), Raise(sizes, Touch(l, cap, op)), cap, k);
      } else {
        RaiseNone(sizes);
      }
    case Del(other) =>
      DelCovered(l, other, sizes, k);
      RaiseNone(sizes);
    case Purge(prefix) =>
      PurgeCovered(l, prefix, sizes, k);
      RaiseNone(sizes);
  }

  lemma {:induction false} RaiseNone(sizes: map<CacheKey, nat>)
    ensures Raise(sizes, None) == sizes
  {
  }

  lemma {:induction false} RunCovered(l: seq<Item>, cap: nat, ops: seq<Op>, sizes: map<CacheKey, nat>, k: CacheKey)
    requires Good(l, cap) && Covered(l, sizes, k)
    requires forall i :: 0 <= i < |ops| ==> !Removes(ops[i], k)
    requires Sum(SizesRun(sizes, l, cap, ops)) <= cap
    ensures Covered(Run(l, cap, ops), SizesRun(sizes, l, cap, ops), k)
    decreases |ops|
  {
    hide Covered, Raise, Sum, Good;
    if ops != [] {
      assert DistinctKeys(l) by {
        GoodIsDistinct(l, cap);
      }
      var l', sizes' := Apply(l, cap, ops[0]), Raise(sizes, Touch(l, cap, ops[0]));
      ApplyKeepsGood(l, cap, ops[0]);
      SizesRunGrows(sizes', l', cap, ops[1..]);
      ApplyCovered(l, cap, ops[0], sizes, k);
      RunCovered(l', cap, ops[1..], sizes', k);
    }
  }

  lemma {:induction false} GoodIsDistinct(l: seq<Item>, cap: nat)
    requires Good(l, cap)
    ensures DistinctKeys(l)
  {
  }

  /** The working-set guarantee: a key that was just hit or accepted stays present, through any
      operations that do not remove it, for as long as the largest sizes of the distinct keys
      used since (itself included) fit the capacity; and the entries ahead of it in the list are
      among those keys. */
  lemma {:induction false} WorkingSetStays(l: seq<Item>, cap: nat, first: Op, later: seq<Op>, k: CacheKey)
    requires Good(l, cap) && Touch(l, cap, first).Some? && Touch(l, cap, first).value.0 == k
    requires forall i :: 0 <= i < |later| ==> !Removes(later[i], k)
    requires Sum(SizesRun(map[], l, cap, [first] + later)) <= cap
    ensures var r, used := Run(l, cap, [first] + later), SizesRun(map[], l, cap, [first] + later);
            && Lookup(r, k).Some?
            && forall i :: 0 <= i < Position(r, k) ==> r[i].0 in used && r[i].1.Bytes() <= used[r[i].0]
  {
    hide Sum, TotalBytes, Raise;
    var ops := [first] + later;
    assert ops[0] == first && ops[1..] == later;
    var t := Touch(l, cap, first);
    var l', sizes := Apply(l, cap, first), Raise(map[], t);
    ApplyKeepsGood(l, cap, first);
    SizesRunGrows(sizes, l', cap, later);
    if first.Get? {
      FrontCovered(l, l[Position(l, k)], map[], k);
    } else {
      FrontCovered(l, (k, first.entry), map[], k);
      FitCovered(Updated(l, k, first.entry), sizes, cap, k);
    }
    RunCovered(l', cap, later, sizes, k);
  }
}
