/** The two handlers of the shortener (RouterSetup.cpp) over the in-memory store and the Bloom
    prefilter, and what clients see over whole runs. */
module Handlers {
  import opened Text
  import opened HttpRequests
  import opened HttpResponses
  import opened BloomFilters
  import opened MemoryStores
  import opened ShortenBodies

  // ----- the state and what the handlers do to it

  datatype Counts = Counts(
    shortenOk: nat,
    shortenBad: nat,
    redirectOk: nat,
    redirectMiss: nat,
    storeGetHit: nat,
    storeGetMiss: nat,
    setnxOk: nat,
    setnxConflict: nat)

  /** `filter` is the list of strings added to a filter of `m` bits, or `None` without a filter. */
  datatype World = World(store: map<string, string>, filter: Option<seq<string>>, m: nat, counts: Counts)

  const ZERO := Counts(0, 0, 0, 0, 0, 0, 0, 0)

  function Conflicted(w: World): World {
    w.(counts := w.counts.(setnxConflict := w.counts.setnxConflict + 1))
  }

  function Created(w: World, id: string, url: string): World {
    w.(store := w.store[id := url],
       filter := if w.filter.Some? then Some(w.filter.value + [id]) else None,
       counts := w.counts.(shortenOk := w.counts.shortenOk + 1, setnxOk := w.counts.setnxOk + 1))
  }

  /** The retry loop: the first id of `ids` from `i` on that is free takes the url. */
  function TryIds(w: World, url: string, ids: seq<string>, i: nat): (World, Option<string>)
    requires i <= |ids|
    decreases |ids| - i
  {
    if i == |ids| then (w, None)
    else if ids[i] in w.store then TryIds(Conflicted(w), url, ids, i + 1)
    else (Created(w, ids[i], url), Some(ids[i]))
  }

  /** What a `POST /api/shorten` makes of the body, given the ids that chance will offer. */
  function AfterShorten(w: World, body: string, ids: seq<string>): (World, Option<string>) {
    var read := ReadBody(body);
    if read.None? || !ValidUrl(read.value.0) then (w.(counts := w.counts.(shortenBad := w.counts.shortenBad + 1)), None)
    else TryIds(w, read.value.0, ids, 0)
  }

  function CreatedBody(id: string): string {
    "{\"id\":\"" + id + "\"}"
  }

  function ShortenResponse(w: World, body: string, ids: seq<string>, out: Response): Response {
    var read := ReadBody(body);
    if read.None? || !ValidUrl(read.value.0) then
      out.(status := 400, headers := out.headers["Content-Type" := "application/json"],
           body := "{\"error\":\"invalid url\"}")
    else
      var id := AfterShorten(w, body, ids).1;
      if id.Some? then out.(status := 200, headers := out.headers["Content-Type" := "application/json"],
                            body := CreatedBody(id.value))
      else out.(status := 500, body := "exhausted id retries")
  }

  /** The filter, if there is one, has not seen the id. */
  predicate Denied(w: World, id: string) {
    w.filter.Some? && w.m > 0 && !Passes(id, w.filter.value, w.m)
  }

  function AfterRedirect(w: World, id: string): World {
    var c := w.counts;
    if id == "" then w
    else if Denied(w, id) then w.(counts := c.(redirectMiss := c.redirectMiss + 1))
    else if id !in w.store then
      w.(counts := c.(redirectMiss := c.redirectMiss + 1, storeGetMiss := c.storeGetMiss + 1))
    else w.(counts := c.(redirectOk := c.redirectOk + 1, storeGetHit := c.storeGetHit + 1))
  }

  function RedirectResponse(w: World, id: string, out: Response): Response {
    if id == "" then out.(status := 400, body := "bad id")
    else if Denied(w, id) || id !in w.store then out.(status := 404, body := "not found")
    else out.(status := 301, headers := out.headers["Location" := w.store[id]]["X-Cacheable" := "1"])
  }

  // ----- what one call does

  /** The i-th drawn id is the first that is not taken. */
  predicate FirstFree(w: World, ids: seq<string>, i: nat) {
    i < |ids| && ids[i] !in w.store && forall j :: 0 <= j < i ==> ids[j] in w.store
  }

  lemma {:induction false} FirstFreeExists(w: World, ids: seq<string>, n: nat) returns (i: nat)
    requires n <= |ids| && exists j :: 0 <= j < n && ids[j] !in w.store
    ensures i < n && FirstFree(w, ids, i)
  {
    if exists j :: 0 <= j < n - 1 && ids[j] !in w.store {
      i := FirstFreeExists(w, ids, n - 1);
    } else {
      i := n - 1;
    }
  }

  /** The world in which the i-th id was given to the url, after as many conflicts. */
  function Given(w: World, ids: seq<string>, i: nat, url: string): World
    requires i < |ids|
  {
    var c := w.counts;
    w.(store := w.store[ids[i] := url],
       filter := if w.filter.Some? then Some(w.filter.value + [ids[i]]) else None,
       counts := c.(shortenOk := c.shortenOk + 1, setnxOk := c.setnxOk + 1, setnxConflict := c.setnxConflict + i))
  }

  lemma {:induction false} TryIdsIs(w: World, url: string, ids: seq<string>, i: nat, free: nat)
    requires i <= free <= |ids| && forall j :: i <= j < free ==> ids[j] in w.store
    requires free < |ids| ==> ids[free] !in w.store
    ensures var (w', id) := TryIds(w, url, ids, i);
            var c := w.counts;
            var w1 := w.(counts := c.(setnxConflict := c.setnxConflict + free - i));
            if free == |ids| then w' == w1 && id == None
            else w' == Created(w1, ids[free], url) && id == Some(ids[free])
    decreases |ids| - i
  {
    if i < free {
      TryIdsIs(Conflicted(w), url, ids, i + 1, free);
    }
  }

  /** The body reads, and its url is valid. */
  predicate Proper(body: string) {
    ReadBody(body).Some? && ValidUrl(ReadBody(body).value.0)
  }

  /** A proper post that draws a free id gets the first one: it is stored under the url, counted with
      one conflict for every id before it, and the answer is 200 with that id. */
  lemma {:induction false} ShortenSucceeds(w: World, body: string, ids: seq<string>, i: nat, out: Response)
    requires Proper(body) && FirstFree(w, ids, i)
    ensures AfterShorten(w, body, ids) == (Given(w, ids, i, ReadBody(body).value.0), Some(ids[i]))
    ensures ShortenResponse(w, body, ids, out) ==
            out.(status := 200, headers := out.headers["Content-Type" := "application/json"],
                 body := "{\"id\":\"" + ids[i] + "\"}")
  {
    hide ReadBody, ValidUrl, TryIds;
    TryIdsIs(w, ReadBody(body).value.0, ids, 0, i);
  }

  /** Any other post fails: 400 and counted if it is not proper, and 500 if all ids are taken, with the
      store as it was and one conflict for every id. */
  lemma {:induction false} ShortenFails(w: World, body: string, ids: seq<string>, out: Response)
    requires Proper(body) ==> forall i :: 0 <= i < |ids| ==> ids[i] in w.store
    ensures var c := w.counts;
            AfterShorten(w, body, ids) ==
            (w.(counts := if Proper(body) then c.(setnxConflict := c.setnxConflict + |ids|)
                          else c.(shortenBad := c.shortenBad + 1)), None)
    ensures ShortenResponse(w, body, ids, out) ==
            if Proper(body) then out.(status := 500, body := "exhausted id retries")
            else out.(status := 400, headers := out.headers["Content-Type" := "application/json"],
                      body := "{\"error\":\"invalid url\"}")
  {
    hide ReadBody, ValidUrl, TryIds;
    if Proper(body) {
      TryIdsIs(w, ReadBody(body).value.0, ids, 0, |ids|);
    }
  }

  /** So an id comes back if and only if the post is proper and some drawn id is free. */
  lemma {:induction false} ShortenSucceedsIff(w: World, body: string, ids: seq<string>)
    ensures AfterShorten(w, body, ids).1.Some? <==>
            Proper(body) && exists i :: 0 <= i < |ids| && ids[i] !in w.store
  {
    hide Proper, AfterShorten, ShortenResponse;
    var out := Response("", 0, "", false, map[], "");
    if Proper(body) && exists i :: 0 <= i < |ids| && ids[i] !in w.store {
      var i := FirstFreeExists(w, ids, |ids|);
      ShortenSucceeds(w, body, ids, i, out);
    } else {
      ShortenFails(w, body, ids, out);
    }
  }

  /** The law of redirecting: 400 without an id, 404 for an id that a filter denies or that is not
      stored, and else 301 to the stored url; the store is asked only for an id that passes. */
  lemma {:induction false} RedirectLaw(w: World, id: string, out: Response)
    ensures var r, w', c := RedirectResponse(w, id, out), AfterRedirect(w, id), w.counts;
            var passes := w.filter.None? || w.m == 0 || Passes(id, w.filter.value, w.m);
            if id == "" then r == out.(status := 400, body := "bad id") && w' == w
            else if passes && id in w.store then
              && r == out.(status := 301, headers := out.headers["Location" := w.store[id]]["X-Cacheable" := "1"])
              && w' == w.(counts := c.(redirectOk := c.redirectOk + 1, storeGetHit := c.storeGetHit + 1))
            else
              && r == out.(status := 404, body := "not found")
              && w' == w.(counts := c.(redirectMiss := c.redirectMiss + 1,
                                       storeGetMiss := c.storeGetMiss + if passes then 1 else 0))
  {
    hide Passes;
  }

  // ----- runs

  datatype Event = Shorten(body: string, ids: seq<string>) | Redirect(id: string)

  function After(w: World, ev: Event): World {
    match ev
    case Shorten(body, ids) => AfterShorten(w, body, ids).0
    case Redirect(id) => AfterRedirect(w, id)
  }

  function Run(w: World, events: seq<Event>): World
    decreases |events|
  {
    if events == [] then w else Run(After(w, events[0]), events[1..])
  }

  /** An empty store with an empty filter. */
  function Empty(m: nat): World {
    World(map[], Some([]), m, ZERO)
  }

  /** What every request keeps: each stored id has been put into the filter, and the ids stored
      are as many as the successful calls. */
  predicate Consistent(w: World) {
    && w.m > 0
    && (w.filter.Some? ==> forall id :: id in w.store ==> id in w.filter.value)
    && |w.store| == w.counts.shortenOk == w.counts.setnxOk
  }

  lemma {:induction false} TryIdsKeeps(w: World, url: string, ids: seq<string>, i: nat)
    requires i <= |ids| && Consistent(w)
    ensures var (w', id) := TryIds(w, url, ids, i);
            && Consistent(w')
            && w'.m == w.m && w'.filter.Some? == w.filter.Some?
            && (forall k :: k in w.store ==> k in w'.store && w'.store[k] == w.store[k])
            && (id.Some? ==> id.value !in w.store && w'.store == w.store[id.value := url])
            && (id.None? ==> w'.store == w.store && w'.filter == w.filter)
    decreases |ids| - i
  {
    if i < |ids| {
      if ids[i] in w.store {
        TryIdsKeeps(Conflicted(w), url, ids, i + 1);
      } else {
        var w' := TryIds(w, url, ids, i).0;
        assert w'.store.Keys == w.store.Keys + {ids[i]};
      }
    }
  }

  lemma {:induction false} EventKeeps(w: World, ev: Event)
    requires Consistent(w)
    ensures var w' := After(w, ev);
            && Consistent(w') && w'.m == w.m && w'.filter.Some? == w.filter.Some?
            && forall k :: k in w.store ==> k in w'.store && w'.store[k] == w.store[k]
  {
    hide ReadBody, ValidUrl, TryIds;
    if ev.Shorten? {
      var read := ReadBody(ev.body);
      if read.Some? && ValidUrl(read.value.0) {
        TryIdsKeeps(w, read.value.0, ev.ids, 0);
      }
    }
  }

  lemma {:induction false} RunKeeps(w: World, events: seq<Event>)
    requires Consistent(w)
    ensures var w' := Run(w, events);
            && Consistent(w') && w'.m == w.m && w'.filter.Some? == w.filter.Some?
            && forall k :: k in w.store ==> k in w'.store && w'.store[k] == w.store[k]
    decreases |events|
  {
    hide After, Consistent;
    if events != [] {
      EventKeeps(w, events[0]);
      RunKeeps(After(w, events[0]), events[1..]);
    }
  }

  /** Every redirect is answered as it would be without the filter. */
  ghost predicate Transparent(w: World) {
    forall id, out :: RedirectResponse(w, id, out) == RedirectResponse(w.(filter := None), id, out)
  }

  /** In any state at all, the filter is transparent if and only if it denies no stored id. */
  lemma {:induction false} TransparentIff(w: World)
    ensures Transparent(w) <==> forall id :: id in w.store && id != "" ==> !Denied(w, id)
  {
    hide Passes;
    if id :| id in w.store && id != "" && Denied(w, id) {
      var out := Response("", 0, "", false, map[], "");
      assert RedirectResponse(w, id, out).status == 404;
      assert RedirectResponse(w.(filter := None), id, out).status == 301;
    }
  }

  /** So an empty filter in front of a store with data, which is how a server starts over a store
      that outlives it, is transparent only if the store is empty, up to the empty id. */
  lemma {:induction false} FreshFilterIff(store: map<string, string>, m: nat, counts: Counts)
    requires m > 0
    ensures Transparent(World(store, Some([]), m, counts)) <==> forall id :: id in store ==> id == ""
  {
    hide RedirectResponse;
    var w := World(store, Some([]), m, counts);
    TransparentIff(w);
    forall id: string
      ensures Denied(w, id)
    {
      assert SeededHash(id, 0) % m in BitsOf(id, m);
    }
  }

  /** The prefilter is transparent: after any run from an empty store, every redirect is answered
      as it would be without the filter. */
  lemma {:induction false} FilterIsTransparent(m: nat, events: seq<Event>)
    requires m > 0
    ensures Transparent(Run(Empty(m), events))
  {
    hide Run, Passes, Transparent;
    RunKeeps(Empty(m), events);
    var w := Run(Empty(m), events);
    forall id | id in w.store && id != ""
      ensures !Denied(w, id)
    {
      if w.filter.Some? {
        NeverDenied(w.filter.value, w.m, id);
      }
    }
    TransparentIff(w);
  }

  /** Links are permanent: a valid post that draws a free id gets one, which redirects to its url ever
      after, and the number of stored ids is the number of successes. */
  lemma {:induction false} LinksArePermanent(
      m: nat, before: seq<Event>, body: string, ids: seq<string>, i: nat, later: seq<Event>, out: Response)
    requires m > 0 && Proper(body)
    requires FirstFree(Run(Empty(m), before), ids, i)
    ensures var w := Run(Empty(m), before);
            var w', url := Run(After(w, Shorten(body, ids)), later), ReadBody(body).value.0;
            && ShortenResponse(w, body, ids, out).body == "{\"id\":\"" + ids[i] + "\"}"
            && |w'.store| == w'.counts.shortenOk
            && (ids[i] != "" ==>
                  RedirectResponse(w', ids[i], out) ==
                  out.(status := 301, headers := out.headers["Location" := url]["X-Cacheable" := "1"]))
  {
    hide Run, Passes, ReadBody, ValidUrl, TryIds, AfterShorten, ShortenResponse;
    RunKeeps(Empty(m), before);
    var w := Run(Empty(m), before);
    EventKeeps(w, Shorten(body, ids));
    ShortenSucceeds(w, body, ids, i, out);
    var w1 := After(w, Shorten(body, ids));
    RunKeeps(w1, later);
    assert w1.store[ids[i]] == ReadBody(body).value.0;
    var w' := Run(w1, later);
    if w'.filter.Some? {
      NeverDenied(w'.filter.value, w'.m, ids[i]);
    }
  }

  // ----- the objects

  class Metrics {
    var counts: Counts

    constructor ()
      ensures counts == ZERO
    {
      counts := ZERO;
    }
  }

  /** The state both handlers share; without a filter `bloom` is null. */
  class Shortener {
    const store: MemoryStore
    const bloom: Bloom?
    const metrics: Metrics

    ghost predicate Valid()
      reads this, store, store.kv.shards, bloom, if bloom == null then {} else {bloom.words}
    {
      store.Valid() && (bloom != null ==> bloom.Valid() && (bloom.words as object) != store.kv.shards)
    }

    ghost function Value(): World
      reads this, store, bloom, metrics
    {
      World(store.contents, if bloom == null then None else Some(bloom.added), if bloom == null then 1 else bloom.m,
            metrics.counts)
    }

    constructor (store: MemoryStore, bloom: Bloom?, metrics: Metrics)
      requires store.Valid() && (bloom != null ==> bloom.Valid())
      requires bloom != null ==> (bloom.words as object) != store.kv.shards  // arrays of different types
      ensures Valid() && this.store == store && this.bloom == bloom && this.metrics == metrics
    {
      this.store, this.bloom, this.metrics := store, bloom, metrics;
    }

    /** `ids` are the random ids that the five tries would draw. */
    method Shorten(req: HttpRequest, resp: HttpResponse, ids: seq<string>)
      requires Valid() && |ids| == 5
      modifies resp, metrics, store, store.kv.shards, bloom, if bloom == null then {} else {bloom.words}
      ensures Valid() && Value() == AfterShorten(old(Value()), req.content, ids).0
      ensures resp.Value() == ShortenResponse(old(Value()), req.content, ids, old(resp.Value()))
    {
      hide ReadBody, ValidUrl, TryIds, CreatedBody, Bloom.Valid, MemoryStore.Valid;
      var read, url, ttl := ParseJson(req.content);
      if !read || !ValidUrl(url) {
        metrics.counts := metrics.counts.(shortenBad := metrics.counts.shortenBad + 1);
        resp.statusCode := 400;
        resp.AddHeader("Content-Type", "application/json");
        resp.body := "{\"error\":\"invalid url\"}";
        return;
      }
      var id := Insert(url, ttl, ids);
      if id.Some? {
        resp.statusCode := 200;
        resp.AddHeader("Content-Type", "application/json");
        resp.body := CreatedBody(id.value);
      } else {
        resp.statusCode := 500;
        resp.body := "exhausted id retries";
      }
    }

    /** The retry loop of `handle`. */
    method Insert(url: string, ttl: int, ids: seq<string>) returns (id: Option<string>)
      requires Valid()
      modifies metrics, store, store.kv.shards, bloom, if bloom == null then {} else {bloom.words}
      ensures Valid() && (Value(), id) == TryIds(old(Value()), url, ids, 0)
    {
      hide Conflicted, Created, BitSet, Indices, ShardOf;
      var i := 0;
      while i < |ids|
        invariant i <= |ids| && Valid()
        invariant TryIds(Value(), url, ids, i) == TryIds(old(Value()), url, ids, 0)
      {
        var ok := TryOne(ids[i], url, ttl);
        if ok {
          return Some(ids[i]);
        }
        i := i + 1;
      }
      id := None;
    }

    method TryOne(id: string, url: string, ttl: int) returns (ok: bool)
      requires Valid()
      modifies metrics, store, store.kv.shards, bloom, if bloom == null then {} else {bloom.words}
      ensures Valid() && ok == (id !in old(Value()).store)
      ensures Value() == if ok then Created(old(Value()), id, url) else Conflicted(old(Value()))
    {
      hide BitSet, Indices, ShardOf, Bloom.Bit, KVStore.Get;
      ok := store.SetNX(id, url, ttl);
      if ok {
        if bloom != null {
          bloom.Add(id);
        }
        metrics.counts := metrics.counts.(shortenOk := metrics.counts.shortenOk + 1,
                                          setnxOk := metrics.counts.setnxOk + 1);
      } else {
        metrics.counts := metrics.counts.(setnxConflict := metrics.counts.setnxConflict + 1);
      }
    }

    method Redirect(req: HttpRequest, resp: HttpResponse)
      requires Valid()
      modifies resp, metrics
      ensures Valid()
      ensures var id := HttpRequests.Lookup(req.pathParameters, "param1");
              && Value() == AfterRedirect(old(Value()), id)
              && resp.Value() == RedirectResponse(old(Value()), id, old(resp.Value()))
    {
      hide Passes, Bloom.Valid, MemoryStore.Valid;
      var id := HttpRequests.Lookup(req.pathParameters, "param1");
      if id == "" {
        resp.statusCode := 400;
        resp.body := "bad id";
        return;
      }
      var might := true;
      if bloom != null {
        might := bloom.MightContain(id);
      }
      if !might {
        CountMiss(false);
        NotFound(resp);
        return;
      }
      var v := store.Get(id);
      if v.None? {
        CountMiss(true);
        NotFound(resp);
        return;
      }
      metrics.counts := metrics.counts.(redirectOk := metrics.counts.redirectOk + 1,
                                        storeGetHit := metrics.counts.storeGetHit + 1);
      resp.statusCode := 301;
      resp.AddHeader("Location", v.value);
      resp.AddHeader("X-Cacheable", "1");
    }

    method CountMiss(asked: bool)
      modifies metrics
      ensures metrics.counts ==
              var c := old(metrics.counts);
              c.(redirectMiss := c.redirectMiss + 1, storeGetMiss := c.storeGetMiss + if asked then 1 else 0)
    {
      metrics.counts := metrics.counts.(redirectMiss := metrics.counts.redirectMiss + 1);
      if asked {
        metrics.counts := metrics.counts.(storeGetMiss := metrics.counts.storeGetMiss + 1);
      }
    }

    method NotFound(resp: HttpResponse)
      modifies resp
      ensures resp.Value() == old(resp.Value()).(status := 404, body := "not found")
    {
      resp.statusCode := 404;
      resp.body := "not found";
    }
  }
}
