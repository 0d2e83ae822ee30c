/** The response cache over whole runs: middleware, LRU store and response object together. */
module CacheRuns {
  import opened Text
  import opened HttpRequests
  import opened HttpResponses
  import opened LruCache
  import opened LruRuns
  import opened CacheMiddlewares

  /** The store after a run of the middleware from an empty cache. */
  ghost function Serve(cap: nat, p: CachePolicy, events: seq<Event>): seq<Item>
    decreases |events|
  {
    if events == [] then []
    else Store(Serve(cap, p, events[..|events| - 1]), cap, events[|events| - 1], p)
  }

  /** The event is an `after` whose response both the middleware and the store accept. */
  ghost predicate Accepted(ev: Event, cap: nat, p: CachePolicy, k: CacheKey) {
    ev.After? && MakeKey(ev.req, p) == k && StoreOp(ev, p).Some? && Pack(ev.resp, ev.now, p).Bytes() <= cap
  }

  predicate Purges(ev: Event, k: CacheKey) {
    ev.PurgeAll? && ev.prefix <= k.pathAndQuery
  }

  /** Event `j` is the latest one that decides what is stored under `k`. */
  ghost predicate Latest(cap: nat, p: CachePolicy, events: seq<Event>, k: CacheKey, j: nat) {
    && j < |events| && Accepted(events[j], cap, p, k)
    && forall i :: j < i < |events| ==> !Accepted(events[i], cap, p, k) && !Purges(events[i], k)
  }

  lemma {:induction false} ServeIsGood(cap: nat, p: CachePolicy, events: seq<Event>)
    ensures Good(Serve(cap, p, events), cap)
    decreases |events|
  {
    hide StoreOp;
    if events != [] {
      var n := |events| - 1;
      ServeIsGood(cap, p, events[..n]);
      var op := StoreOp(events[n], p);
      if op.Some? {
        ApplyKeepsGood(Serve(cap, p, events[..n]), cap, op.value);
      }
    }
  }

  lemma {:induction false} GetItems(l: seq<Item>, k: CacheKey)
    ensures forall x :: x in AfterGet(l, k) ==> x in l
  {
  }

  lemma {:induction false} SetItems(l: seq<Item>, cap: nat, k: CacheKey, e: CachedEntry)
    requires DistinctKeys(l) && e.Bytes() <= cap
    ensures forall x :: x in AfterSet(l, cap, k, e) ==> x == (k, e) || (x in l && x.0 != k)
  {
    hide TotalBytes;
    FitIsPrefix(Updated(l, k, e), cap);
    UpdatedItems(l, k, e);
    var r := AfterSet(l, cap, k, e);
    forall x | x in r
      ensures x in Updated(l, k, e)
    {
      var i :| 0 <= i < |r| && r[i] == x;
    }
  }

  /** Whatever is in the store was packed from the latest accepted response for its key. */
  lemma {:induction false} EntryIsLatest(cap: nat, p: CachePolicy, events: seq<Event>, x: Item) returns (j: nat)
    requires x in Serve(cap, p, events)
    ensures Latest(cap, p, events, x.0, j)
    ensures x.1 == Pack(events[j].resp, events[j].now, p)
    decreases |events|
  {
    hide CacheableRequest, CacheableResponse, Pack, MakeKey, TotalBytes, AfterGet, AfterSet, AfterPurge;
    var n := |events| - 1;
    var front, last := events[..n], events[n];
    var l, op := Serve(cap, p, front), StoreOp(last, p);
    ServeIsGood(cap, p, front);
    var here := false;
    match last {
      case Before(req, _) =>
        GetItems(l, MakeKey(req, p));
      case After(req, resp, now) =>
        if op.Some? {
          var k, e := MakeKey(req, p), Pack(resp, now, p);
          if e.Bytes() <= cap {
            SetItems(l, cap, k, e);
            here := x == (k, e);
          } else {
            OversizedSet(l, cap, k, e);
          }
        }
      case PurgeAll(prefix) =>
        PurgeItems(l, prefix);
    }
    if here {
      j := n;
    } else {
      j := EntryIsLatest(cap, p, front, x);
      assert forall i :: j < i < n ==> events[i] == front[i];
    }
  }

  lemma {:induction false} OversizedSet(l: seq<Item>, cap: nat, k: CacheKey, e: CachedEntry)
    requires e.Bytes() > cap
    ensures AfterSet(l, cap, k, e) == l
  {
  }

  /** Cache soundness over runs: a hit at `now` answers with the latest accepted response for the
      key, inside its freshness or stale window; `Warning` is set exactly when it is stale. Headers
      and body are always the stored ones; the status line is, exactly when it fits the buffer. */
  lemma {:induction false} HitIsLatestResponse(
      cap: nat, p: CachePolicy, events: seq<Event>, req: Request, out: Response, now: int)
    returns (j: nat)
    requires Answer(Serve(cap, p, events), p, req, out, now).0
    ensures Latest(cap, p, events, MakeKey(req, p), j)
    ensures var r := Answer(Serve(cap, p, events), p, req, out, now).1;
            var stored, hard := events[j].resp, events[j].now + p.ttl;
            && (now < hard || now < hard + p.staleWhileRevalidate)
            && r.headers == (if now < hard then stored.headers
                             else stored.headers["Warning" := "110 - Response is Stale"])
            && r.body == stored.body && r.closeConnection == out.closeConnection
            && ((r.version, r.status, r.reason) == (stored.version, stored.status, stored.reason) <==>
                FitsStatusLine(stored.version, stored.status, stored.reason))
  {
    hide MakeKey, CacheableRequest, StatusLine, ReadStatusLine, FitsStatusLine, Find, HeaderList, AddAll;
    var l, k := Serve(cap, p, events), MakeKey(req, p);
    var e := LruCache.Lookup(l, k).value;
    j := EntryIsLatest(cap, p, events, l[Position(l, k)]);
    var stored := events[j].resp;
    HeaderListRoundTrip(map[], stored.headers);
    assert map[] + stored.headers == stored.headers;
    AcceptedStatus(events[j], cap, p, k);
    StatusLineRoundTripIff(stored.version, stored.status, stored.reason);
  }

  lemma {:induction false} AcceptedStatus(ev: Event, cap: nat, p: CachePolicy, k: CacheKey)
    requires Accepted(ev, cap, p, k)
    ensures ev.resp.status == 200 || ev.resp.status == 301 || ev.resp.status == 404
    ensures CacheableRequest(ev.req, p) && CacheableResponse(ev.resp, p)
  {
  }

  // ----- what the policy decides

  ghost predicate Contains(s: string, part: string) {
    exists i :: 0 <= i <= |s| && part <= s[i..]
  }

  /** The conditions of the policy on a request and on a response, one by one. */
  ghost predicate PolicyTakes(req: Request, resp: Response, p: CachePolicy) {
    && !(p.respectAuthorization && HttpRequests.Lookup(req.headers, "authorization") != "")
    && ((req.verb.Get? && p.cacheGET) || (req.verb.Head? && p.cacheHEAD))
    && !(p.respectNoStore && Contains(HttpRequests.Lookup(resp.headers, "Cache-Control"), "no-store"))
    && ((resp.status == 200 && p.cache200) || (resp.status == 301 && p.cache301) || (resp.status == 404 && p.cache404))
  }

  lemma {:induction false} PolicyTakesIff(req: Request, resp: Response, p: CachePolicy)
    ensures CacheableRequest(req, p) && CacheableResponse(resp, p) <==> PolicyTakes(req, resp, p)
  {
    hide FindText;
    var v := HttpRequests.Lookup(resp.headers, "Cache-Control");
    var r := FindText(v, "no-store");
    if r.None? {
      assert forall i :: 0 <= i <= |v| ==> !("no-store" <= v[i..]);
    }
  }

  /** What `after` does to any store: a response is stored, in front, if and only if the policy takes
      request and response and the entry fits both the policy's limit and the store; any other
      response leaves the store alone. */
  lemma {:induction false} StoredIff(l: seq<Item>, cap: nat, p: CachePolicy, req: Request, resp: Response, now: int)
    requires DistinctKeys(l)
    ensures var l', k, e := Store(l, cap, Event.After(req, resp, now), p), MakeKey(req, p), Pack(resp, now, p);
            var size := |e.statusLine + e.body + FieldsText(e.headers)|;
            if PolicyTakes(req, resp, p) && size <= p.maxObjectBytes && size <= cap
            then l' != [] && l'[0] == (k, e) && LruCache.Lookup(l', k) == Some(e)
            else l' == l
  {
    hide CacheableRequest, CacheableResponse, MakeKey, Pack, TotalBytes, PolicyTakes;
    var k, e := MakeKey(req, p), Pack(resp, now, p);
    PolicyTakesIff(req, resp, p);
    BytesAreCharacters(e);
    if e.Bytes() <= cap {
      EvictionIsExact(l, cap, k, e);
    } else {
      OversizedSet(l, cap, k, e);
    }
  }

  /** What a client never gets from the cache, in any run: a response that said `no-store`, if the
      policy respects that, or one of a status that the policy does not cache. */
  lemma {:induction false} HitsObeyPolicy(
      cap: nat, p: CachePolicy, events: seq<Event>, req: Request, out: Response, now: int)
    requires Answer(Serve(cap, p, events), p, req, out, now).0
    ensures var r := Answer(Serve(cap, p, events), p, req, out, now).1;
            p.respectNoStore ==> !Contains(HttpRequests.Lookup(r.headers, "Cache-Control"), "no-store")
    ensures exists j: nat :: Latest(cap, p, events, MakeKey(req, p), j) && PolicyTakes(events[j].req, events[j].resp, p)
  {
    hide Answer, Serve, MakeKey, CacheableRequest, CacheableResponse, FitsStatusLine;
    var j := HitIsLatestResponse(cap, p, events, req, out, now);
    AcceptedStatus(events[j], cap, p, MakeKey(req, p));
    PolicyTakesIff(events[j].req, events[j].resp, p);
  }

  /** When `before` answers, on any store, and that it touches nothing otherwise. */
  lemma {:induction false} AnsweredIff(l: seq<Item>, p: CachePolicy, req: Request, out: Response, now: int)
    ensures var (hit, r) := Answer(l, p, req, out, now);
            && (hit <==>
                  && !(p.respectAuthorization && HttpRequests.Lookup(req.headers, "authorization") != "")
                  && ((req.verb.Get? && p.cacheGET) || (req.verb.Head? && p.cacheHEAD))
                  && exists i :: 0 <= i < |l| && l[i].0 == MakeKey(req, p) && InUse(l, i, p, req, now))
            && (!hit ==> r == out)
  {
    hide MakeKey, Unpack;
    var k := MakeKey(req, p);
    var q := Position(l, k);
    if q < |l| && InUse(l, q, p, req, now) {
      assert l[q].0 == k;
    }
  }

  /** Entry i is the one that a lookup finds, and it is fresh or in its stale window. */
  ghost predicate InUse(l: seq<Item>, i: nat, p: CachePolicy, req: Request, now: int)
    requires i < |l|
  {
    (forall j :: 0 <= j < i ==> l[j].0 != l[i].0) && (now < l[i].1.hardExpire || now < l[i].1.softExpire)
  }

  /** A cacheable request for a stored key renews its entry, also when the entry has expired. */
  lemma {:induction false} HitRenews(cap: nat, p: CachePolicy, events: seq<Event>, i: nat, j: nat)
    requires i < |events| && events[i].Before? && CacheableRequest(events[i].req, p)
    requires var l := Serve(cap, p, events[..i]); j < |l| && l[j].0 == MakeKey(events[i].req, p)
    ensures Renews(cap, p, events, i, MakeKey(events[i].req, p))
  {
    hide Serve, MakeKey, CacheableRequest;
  }

  /** What `before` does to any store: a request that the policy takes moves the entry of its key, and
      only that, to the front, and any other leaves the store alone. */
  lemma {:induction false} BeforeTouches(l: seq<Item>, cap: nat, p: CachePolicy, req: Request, now: int, i: nat)
    requires DistinctKeys(l) && i < |l| && l[i].0 == MakeKey(req, p)
    ensures Store(l, cap, Event.Before(req, now), p) ==
            if !(p.respectAuthorization && HttpRequests.Lookup(req.headers, "authorization") != "")
               && ((req.verb.Get? && p.cacheGET) || (req.verb.Head? && p.cacheHEAD))
            then [l[i]] + l[..i] + l[i + 1..] else l
  {
    hide MakeKey;
    PositionIs(l, i);
    assert [l[i]] + l[..i] + l[i + 1..] == [l[i]] + (l[..i] + l[i + 1..]);
  }

  // ----- and the other direction: what has to be served

  ghost function Ops(events: seq<Event>, p: CachePolicy): seq<Op>
    decreases |events|
  {
    if events == [] then []
    else (if StoreOp(events[0], p).Some? then [StoreOp(events[0], p).value] else []) + Ops(events[1..], p)
  }

  lemma {:induction false} RunCons(l: seq<Item>, cap: nat, op: Op, ops: seq<Op>)
    ensures Run(l, cap, [op] + ops) == Run(Apply(l, cap, op), cap, ops)
  {
    assert ([op] + ops)[1..] == ops;
  }

  /** A middleware run from event `j` on is a store run of its operations. */
  lemma {:induction false} ServeIsRun(cap: nat, p: CachePolicy, events: seq<Event>, j: nat)
    requires j <= |events|
    ensures Serve(cap, p, events) == Run(Serve(cap, p, events[..j]), cap, Ops(events[j..], p))
    decreases |events| - j
  {
    hide StoreOp, Apply;
    if j == |events| {
      assert events[..j] == events && events[j..] == [];
    } else {
      ServeIsRun(cap, p, events, j + 1);
      assert events[..j + 1][..j] == events[..j];
      assert events[j..][1..] == events[j + 1..];
      var l, op, later := Serve(cap, p, events[..j]), StoreOp(events[j], p), Ops(events[j + 1..], p);
      if op.Some? {
        RunCons(l, cap, op.value, later);
        assert Ops(events[j..], p) == [op.value] + later;
      } else {
        assert Ops(events[j..], p) == [] + later == later;
      }
    }
  }

  lemma {:induction false} OpsDoNotRemove(events: seq<Event>, p: CachePolicy, k: CacheKey)
    requires forall i :: 0 <= i < |events| ==> !Purges(events[i], k)
    ensures forall i :: 0 <= i < |Ops(events, p)| ==> !Removes(Ops(events, p)[i], k)
    decreases |events|
  {
    hide CacheableRequest, CacheableResponse, Pack, MakeKey;
    if events != [] {
      OpsDoNotRemove(events[1..], p, k);
      var later := Ops(events[1..], p);
      var first := if StoreOp(events[0], p).Some? then [StoreOp(events[0], p).value] else [];
      forall i | 0 <= i < |first + later|
        ensures !Removes((first + later)[i], k)
      {
        if i >= |first| {
          assert (first + later)[i] == later[i - |first|];
        }
      }
    }
  }

  /** The largest sizes of the keys used from event `j` on fit the capacity together. */
  ghost predicate WorkingSetFits(cap: nat, p: CachePolicy, events: seq<Event>, j: nat)
    requires j <= |events|
  {
    Sum(SizesRun(map[], Serve(cap, p, events[..j]), cap, Ops(events[j..], p))) <= cap
  }

  /** Event `i` brings the entry of `k` to the front: a hit on it, or an accepted response for it. */
  ghost predicate Renews(cap: nat, p: CachePolicy, events: seq<Event>, i: nat, k: CacheKey)
    requires i < |events|
  {
    && StoreOp(events[i], p).Some?
    && var t := Touch(Serve(cap, p, events[..i]), cap, StoreOp(events[i], p).value);
    t.Some? && t.value.0 == k
  }

  lemma {:induction false} AcceptedRenews(cap: nat, p: CachePolicy, events: seq<Event>, j: nat, k: CacheKey)
    requires j < |events| && Accepted(events[j], cap, p, k)
    ensures Renews(cap, p, events, j, k)
  {
  }

  /** Nothing is forgotten too early: while the keys used since the entry was last renewed fit the
      capacity, every cacheable request for the latest accepted response, inside its window, is
      answered from the cache. Event `i` is any renewal from the acceptance `j` on. */
  lemma {:induction false} WorkingSetIsServed(
      cap: nat, p: CachePolicy, events: seq<Event>, j: nat, i: nat, req: Request, out: Response, now: int)
    requires CacheableRequest(req, p) && Latest(cap, p, events, MakeKey(req, p), j)
    requires j <= i < |events| && (i == j || Renews(cap, p, events, i, MakeKey(req, p)))
    requires WorkingSetFits(cap, p, events, i)
    requires now < events[j].now + p.ttl || now < events[j].now + p.ttl + p.staleWhileRevalidate
    ensures Answer(Serve(cap, p, events), p, req, out, now).0
  {
    hide MakeKey, CacheableRequest, CacheableResponse, Sum, Unpack, SizesRun, Run, TotalBytes, Good, Touch;
    var k, l := MakeKey(req, p), Serve(cap, p, events[..i]);
    AcceptedRenews(cap, p, events, j, k);
    var first, later := StoreOp(events[i], p).value, Ops(events[i + 1..], p);
    ServeIsGood(cap, p, events[..i]);
    ServeIsRun(cap, p, events, i);
    OpsDoNotRemove(events[i + 1..], p, k);
    assert events[i..][1..] == events[i + 1..];
    assert Ops(events[i..], p) == [first] + later;
    WorkingSetStays(l, cap, first, later, k);
    var r := Serve(cap, p, events);
    var found := EntryIsLatest(cap, p, events, r[Position(r, k)]);
    LatestUnique(cap, p, events, k, found, j);
  }

  lemma {:induction false} LatestUnique(cap: nat, p: CachePolicy, events: seq<Event>, k: CacheKey, i: nat, j: nat)
    requires Latest(cap, p, events, k, i) && Latest(cap, p, events, k, j)
    ensures i == j
  {
  }

  /** A store that has accepted one response holds it alone. */
  lemma {:induction false} OneStored(cap: nat, p: CachePolicy, ev: Event, k: CacheKey)
    requires Accepted(ev, cap, p, k)
    ensures Serve(cap, p, [ev]) == [(k, Pack(ev.resp, ev.now, p))]
  {
    hide CacheableRequest, CacheableResponse, MakeKey, Pack;
    var e := Pack(ev.resp, ev.now, p);
    assert [ev][..0] == [] && Serve(cap, p, []) == [];
    assert [(k, e)] + Without<Item>([], Position([], k)) == [(k, e)];
    TotalBytesOne((k, e));
  }

  /** Who gets a response that was stored for another request: every cacheable request, inside the
      window, that agrees with it in method, path and (when the policy varies on it) accepted
      encoding, as far as the code sees it. The query takes no part, although the field is called
      `pathAndQuery`. */
  lemma {:induction false} SharedIff(
      cap: nat, p: CachePolicy, a: Request, resp: Response, at: int, b: Request, out: Response, now: int)
    requires Accepted(Event.After(a, resp, at), cap, p, MakeKey(a, p))
    ensures Answer(Serve(cap, p, [Event.After(a, resp, at)]), p, b, out, now).0 <==>
            && CacheableRequest(b, p)
            && (now < at + p.ttl || now < at + p.ttl + p.staleWhileRevalidate)
            && a.verb == b.verb && a.path == b.path
            && (p.varyAcceptEncoding ==>
                  HttpRequests.Lookup(a.headers, "accept-encoding") ==
                  HttpRequests.Lookup(b.headers, "accept-encoding"))
  {
    hide Serve, Accepted, MakeKey, CacheableRequest, Unpack;
    OneStored(cap, p, Event.After(a, resp, at), MakeKey(a, p));
    ShareAKeyIff(a, b, p);
  }

  lemma {:induction false} ShareAKeyIff(a: Request, b: Request, p: CachePolicy)
    ensures MakeKey(a, p) == MakeKey(b, p) <==>
            && a.verb == b.verb && a.path == b.path
            && (p.varyAcceptEncoding ==>
                  HttpRequests.Lookup(a.headers, "accept-encoding") ==
                  HttpRequests.Lookup(b.headers, "accept-encoding"))
  {
    if VerbName(a.verb) == VerbName(b.verb) {
      VerbNameInjective(a.verb, b.verb);
    }
  }

  lemma {:induction false} VerbNameInjective(a: Method, b: Method)
    requires VerbName(a) == VerbName(b)
    ensures a == b
  {
    assert |VerbName(a)| == |VerbName(b)|;
    assert VerbName(a)[0] == VerbName(b)[0];
  }
}
