/** The response cache in front of the handlers (CacheMiddleware.cpp): what may be stored, under
    which key, and what a hit puts into the response. */
module CacheMiddlewares {
  import opened Text
  import opened HttpRequests
  import opened HttpResponses
  import opened LruCache
  import opened LruRuns

  datatype CachePolicy = CachePolicy(
    cacheGET: bool,
    cacheHEAD: bool,
    cache200: bool,
    cache301: bool,
    cache404: bool,
    maxObjectBytes: nat,
    ttl: int,
    staleWhileRevalidate: int,
    varyAcceptEncoding: bool,
    respectNoStore: bool,
    respectAuthorization: bool)

  function VerbName(m: Method): string {
    match m
    case Get => "GET"
    case Head => "HEAD"
    case Post => "POST"
    case Put => "PUT"
    case Delete => "DELETE"
    case Options => "OPTIONS"
    case Invalid => "UNKNOWN"
  }

  predicate CacheableRequest(req: Request, p: CachePolicy) {
    && !(p.respectAuthorization && HttpRequests.Lookup(req.headers, "authorization") != "")
    && ((req.verb.Get? && p.cacheGET) || (req.verb.Head? && p.cacheHEAD))
  }

  predicate HasNoStore(resp: Response) {
    FindText(HttpRequests.Lookup(resp.headers, "Cache-Control"), "no-store").Some?
  }

  predicate CacheableResponse(resp: Response, p: CachePolicy) {
    && !(p.respectNoStore && HasNoStore(resp))
    && ((resp.status == 200 && p.cache200) || (resp.status == 301 && p.cache301) || (resp.status == 404 && p.cache404))
  }

  /** The path without the query: `getPathWithQuery` returns `path()`. */
  function MakeKey(req: Request, p: CachePolicy): CacheKey {
    CacheKey(VerbName(req.verb), req.path,
             if p.varyAcceptEncoding then HttpRequests.Lookup(req.headers, "accept-encoding") else "")
  }

  ghost function Pack(resp: Response, now: int, p: CachePolicy): CachedEntry {
    CachedEntry(StatusLine(resp.version, resp.status, resp.reason), HeaderList(resp.headers), resp.body,
                now + p.ttl, now + p.ttl + p.staleWhileRevalidate)
  }

  /** The response that an entry stands for, written over `out`. */
  function Unpack(e: CachedEntry, out: Response): Response {
    var (version, status, reason) := ReadStatusLine(e.statusLine);
    Response(version, status, reason, out.closeConnection, AddAll(map[], e.headers), e.body)
  }

  const WARNING := "110 - Response is Stale"

  /** `before`: whether it answers from the cache, and the response it leaves. */
  function Answer(l: seq<Item>, p: CachePolicy, req: Request, out: Response, now: int): (bool, Response) {
    var hit := LruCache.Lookup(l, MakeKey(req, p));
    if !CacheableRequest(req, p) || hit.None? then (false, out)
    else if now < hit.value.hardExpire then (true, Unpack(hit.value, out))
    else if now < hit.value.softExpire then
      var r := Unpack(hit.value, out);
      (true, r.(headers := r.headers["Warning" := WARNING]))
    else (false, out)
  }

  /** What the middleware does to its store; `None` where it does not call it. */
  datatype Event =
    | Before(req: Request, now: int)
    | After(req: Request, resp: Response, now: int)
    | PurgeAll(prefix: string)

  ghost function StoreOp(ev: Event, p: CachePolicy): Option<Op> {
    match ev
    case Before(req, _) => if CacheableRequest(req, p) then Some(Op.Get(MakeKey(req, p))) else None
    case After(req, resp, now) =>
      if CacheableRequest(req, p) && CacheableResponse(resp, p) && Pack(resp, now, p).Bytes() <= p.maxObjectBytes
      then Some(Op.Set(MakeKey(req, p), Pack(resp, now, p))) else None
    case PurgeAll(prefix) => Some(Op.Purge(prefix))
  }

  ghost function Store(l: seq<Item>, cap: nat, ev: Event, p: CachePolicy): seq<Item> {
    var op := StoreOp(ev, p);
    if op.Some? then Apply(l, cap, op.value) else l
  }

  class CacheMiddleware {
    const policy: CachePolicy
    const store: MemoryCacheLRU

    constructor (policy: CachePolicy, store: MemoryCacheLRU)
      ensures this.policy == policy && this.store == store
    {
      this.policy, this.store := policy, store;
    }

    method MakePack(resp: HttpResponse, now: int) returns (e: CachedEntry)
      ensures e == Pack(resp.Value(), now, policy)
    {
      var headers := resp.HeadersVector();
      var hardExpire := now + policy.ttl;
      e := CachedEntry(StatusLine(resp.httpVersion, resp.statusCode, resp.statusMessage), headers, resp.body,
                       hardExpire, hardExpire + policy.staleWhileRevalidate);
    }

    method SetFromEntry(e: CachedEntry, out: HttpResponse)
      modifies out
      ensures out.Value() == Unpack(e, old(out.Value()))
    {
      var (version, status, reason) := ReadStatusLine(e.statusLine);
      out.SetStatusLine(version, status, reason);
      out.headers := map[];
      var i := 0;
      while i < |e.headers|
        invariant i <= |e.headers|
        invariant AddAll(out.headers, e.headers[i..]) == AddAll(map[], e.headers)
        invariant out.Value() ==
                  old(out.Value()).(version := version, status := status, reason := reason, headers := out.headers)
      {
        out.AddHeader(e.headers[i].0, e.headers[i].1);
        assert e.headers[i..][1..] == e.headers[i + 1..];
        i := i + 1;
      }
      assert e.headers[i..] == [];
      out.body := e.body;
    }

    method Before(req: HttpRequest, resp: HttpResponse, now: int) returns (hit: bool)
      requires store.Valid()
      modifies store, resp
      ensures store.Valid()
      ensures store.Contents() == Store(old(store.Contents()), store.capBytes, Event.Before(req.Value(), now), policy)
      ensures (hit, resp.Value()) == Answer(old(store.Contents()), policy, req.Value(), old(resp.Value()), now)
    {
      hide CacheableRequest, MakeKey, Unpack, LruCache.Lookup, AfterGet, Indexed, TotalBytes, Items;
      if !CacheableRequest(req.Value(), policy) {
        return false;
      }
      var key := MakeKey(req.Value(), policy);
      var found := store.Get(key);
      if found.None? {
        return false;
      }
      if now < found.value.hardExpire {
        SetFromEntry(found.value, resp);
        return true;
      }
      if now < found.value.softExpire {
        SetFromEntry(found.value, resp);
        resp.AddHeader("Warning", WARNING);
        return true;
      }
      return false;
    }

    method After(req: HttpRequest, resp: HttpResponse, now: int)
      requires store.Valid()
      modifies store, store.lru
      ensures store.Valid()
      ensures store.Contents() ==
              Store(old(store.Contents()), store.capBytes, Event.After(req.Value(), old(resp.Value()), now), policy)
      ensures resp.Value() == old(resp.Value())
    {
      hide CacheableRequest, CacheableResponse, MakeKey, Pack, AfterSet, Indexed, TotalBytes, Items;
      if !CacheableRequest(req.Value(), policy) {
        return;
      }
      if !CacheableResponse(resp.Value(), policy) {
        return;
      }
      var e := MakePack(resp, now);
      if e.Bytes() > policy.maxObjectBytes {
        return;
      }
      store.Set(MakeKey(req.Value(), policy), e);
    }

    method PurgePrefix(prefix: string)
      requires store.Valid()
      modifies store
      ensures store.Valid()
      ensures store.Contents() == Store(old(store.Contents()), store.capBytes, PurgeAll(prefix), policy)
    {
      store.PurgePrefix(prefix);
    }
  }
}
