/** The code compares the names of header fields with their case, which section 5.1 of RFC 9110 says
    a recipient must not. This says what that does to requests as clients write them: to the
    length of a body (HttpContext.cpp) and to the response cache (CacheMiddleware.cpp). */
module FieldNames {
  import opened Text
  import opened HttpRequests
  import opened HttpResponses
  import opened HttpParsing
  import opened RoundTrip
  import opened CacheMiddlewares
  import opened CacheRuns

  /** The i-th field is the only one with that name, in any case. */
  predicate OnlyField(hs: Pairs, i: nat, name: string) {
    i < |hs| && SameName(hs[i].0, name) && forall j :: 0 <= j < |hs| && j != i ==> !SameName(hs[j].0, name)
  }

  /** What the server sees of a field. */
  function Field(hs: Pairs, name: string): string {
    HttpRequests.Lookup(AddAll(map[], hs), name)
  }

  lemma {:induction false} AbsentField(m: map<string, string>, hs: Pairs, name: string)
    requires forall j :: 0 <= j < |hs| ==> hs[j].0 != name
    ensures HttpRequests.Lookup(AddAll(m, hs), name) == HttpRequests.Lookup(m, name)
    decreases |hs|
  {
    if hs != [] {
      AbsentField(m[hs[0].0 := hs[0].1], hs[1..], name);
    }
  }

  lemma {:induction false} FieldAt(m: map<string, string>, hs: Pairs, i: nat, name: string)
    requires i < |hs| && hs[i].0 == name && forall j :: i < j < |hs| ==> hs[j].0 != name
    ensures HttpRequests.Lookup(AddAll(m, hs), name) == hs[i].1
    decreases |hs|
  {
    var m' := m[hs[0].0 := hs[0].1];
    if i == 0 {
      AbsentField(m', hs[1..], name);
    } else {
      FieldAt(m', hs[1..], i - 1, name);
    }
  }

  /** A field is seen if and only if its name is spelled as the code spells it. */
  lemma {:induction false} FieldSeen(hs: Pairs, i: nat, name: string)
    requires OnlyField(hs, i, name)
    ensures Field(hs, name) == if hs[i].0 == name then hs[i].1 else ""
  {
    hide AddAll;
    if hs[i].0 == name {
      FieldAt(map[], hs, i, name);
    } else {
      AbsentField(map[], hs, name);
    }
  }

  // ----- the length of a body

  /** A body whose length is announced once, exactly, comes back if and only if the field is spelled
      `Content-Length`; in any other case the request is a syntax error. */
  lemma {:induction false} LengthSeenIff(w: Wire, i: nat, r: Request, rest: string, now: int)
    requires HeadFormed(w) && TakesBody(w.verb) && Unused(r)
    requires OnlyField(w.headers, i, "Content-Length") && BytesAsked(w.headers[i].1) == Some(|w.body|)
    ensures var o := Parse(Context(ExpectRequestLine, r), Print(w) + rest, now);
            if w.headers[i].0 == "Content-Length" then o == Outcome(Good, Context(GotAll, Meaning(w, r, now)), rest)
            else o.verdict.Bad?
  {
    hide Print, Parse, AddAll, Stoi, BytesAsked, HeaderPair, LineFormed, SameName;
    FieldSeen(w.headers, i, "Content-Length");
    if w.headers[i].0 == "Content-Length" {
      PrintParseIff(w, r, rest, now);
    } else {
      HeadersPrinted(w, r, rest, now);
      assert "\r\n" + w.body + rest == "\r\n" + (w.body + rest);
      LengthLineLaw(AtHeadersEnd(w, r, now), w.body + rest, now);
    }
  }

  // ----- the response cache

  /** A request on the wire, the request object it is read into, and what follows it. */
  datatype Delivery = Delivery(wire: Wire, into: Request, rest: string, time: int)

  predicate Proper(d: Delivery) {
    WellFormed(d.wire) && Unused(d.into)
  }

  function Received(d: Delivery): Request {
    Parse(Context(ExpectRequestLine, d.into), Print(d.wire) + d.rest, d.time).context.request
  }

  lemma {:induction false} ReceivedIs(d: Delivery)
    requires Proper(d)
    ensures var req := Received(d);
            && req.verb == d.wire.verb && req.path == d.wire.path && req.headers == AddAll(map[], d.wire.headers)
    ensures !d.wire.verb.Head?
  {
    hide Print, Parse, AddAll;
    PrintParse(d.wire, d.into, d.rest, d.time);
  }

  /** Which requests the cache takes up: GETs in which it sees no `authorization`. */
  predicate CacheableWire(w: Wire, p: CachePolicy) {
    && w.verb.Get? && p.cacheGET
    && !(p.respectAuthorization && Field(w.headers, "authorization") != "")
  }

  lemma {:induction false} CacheableOnTheWireIff(d: Delivery, p: CachePolicy)
    requires Proper(d)
    ensures CacheableRequest(Received(d), p) <==> CacheableWire(d.wire, p)
  {
    hide Received, AddAll, Proper;
    ReceivedIs(d);
  }

  /** The key of a printed request: its method and path as printed, and what is seen of
      `accept-encoding` if the policy varies on it. */
  lemma {:induction false} KeyOnTheWire(d: Delivery, p: CachePolicy)
    requires Proper(d)
    ensures var k := MakeKey(Received(d), p);
            && k.verb == VerbText(d.wire.verb) && k.pathAndQuery == d.wire.path
            && k.acceptEncoding == if p.varyAcceptEncoding then Field(d.wire.headers, "accept-encoding") else ""
  {
    hide Received, AddAll;
    ReceivedIs(d);
  }

  /** A request with credentials is kept out of the cache, as the policy asks, if and only if it
      spells the name of the field in lower case. */
  lemma {:induction false} CredentialsKeptOutIff(d: Delivery, i: nat, p: CachePolicy)
    requires Proper(d) && d.wire.verb.Get? && p.cacheGET && p.respectAuthorization
    requires OnlyField(d.wire.headers, i, "authorization") && d.wire.headers[i].1 != ""
    ensures !CacheableRequest(Received(d), p) <==> d.wire.headers[i].0 == "authorization"
  {
    hide Received, Proper, CacheableRequest, OnlyField, Field;
    CacheableOnTheWireIff(d, p);
    FieldSeen(d.wire.headers, i, "authorization");
  }

  /** The spellings that most clients use are not seen. */
  lemma {:induction false} UsualAuthorization()
    ensures SameName("Authorization", "authorization") && "Authorization" != "authorization"
  {
    assert "Authorization" == "A" + "uthorization" && "authorization" == "a" + "uthorization";
  }

  lemma {:induction false} UsualAcceptEncoding()
    ensures SameName("Accept-Encoding", "accept-encoding") && "Accept-Encoding" != "accept-encoding"
  {
    assert "Accept-Encoding" == "A" + "ccept-" + "E" + "ncoding";
    assert "accept-encoding" == "a" + "ccept-" + "e" + "ncoding";
  }

  /** The response is one that middleware and store accept. */
  ghost predicate Storable(resp: Response, at: int, cap: nat, p: CachePolicy) {
    CacheableResponse(resp, p) && Pack(resp, at, p).Bytes() <= p.maxObjectBytes && Pack(resp, at, p).Bytes() <= cap
  }

  lemma {:induction false} StorableIsAccepted(a: Delivery, resp: Response, at: int, cap: nat, p: CachePolicy)
    requires Proper(a) && CacheableWire(a.wire, p) && Storable(resp, at, cap, p)
    ensures Accepted(Event.After(Received(a), resp, at), cap, p, MakeKey(Received(a), p))
  {
    hide Received, Proper, CacheableRequest, CacheableResponse, MakeKey, Pack, CacheableWire;
    CacheableOnTheWireIff(a, p);
  }

  predicate InWindow(at: int, now: int, p: CachePolicy) {
    now < at + p.ttl || now < at + p.ttl + p.staleWhileRevalidate
  }

  /** From wire to wire: a response stored for the request `a` answers the request `b` if and only
      if the cache takes `b` up, inside the window, and the two agree in method, path and (when the
      policy varies on it) in what is seen of `accept-encoding`. */
  lemma {:induction false} SharedOnTheWireIff(
      cap: nat, p: CachePolicy, a: Delivery, resp: Response, at: int, b: Delivery, out: Response, now: int)
    requires Proper(a) && Proper(b) && CacheableWire(a.wire, p) && Storable(resp, at, cap, p)
    ensures Answer(Serve(cap, p, [Event.After(Received(a), resp, at)]), p, Received(b), out, now).0 <==>
            && CacheableWire(b.wire, p) && InWindow(at, now, p)
            && a.wire.verb == b.wire.verb && a.wire.path == b.wire.path
            && (p.varyAcceptEncoding ==>
                  Field(a.wire.headers, "accept-encoding") == Field(b.wire.headers, "accept-encoding"))
  {
    hide Received, AddAll, Proper, Accepted, Answer, Serve, CacheableRequest, CacheableWire, Storable, MakeKey;
    ReceivedIs(a);
    ReceivedIs(b);
    StorableIsAccepted(a, resp, at, cap, p);
    CacheableOnTheWireIff(b, p);
    SharedIff(cap, p, Received(a), resp, at, Received(b), out, now);
  }

  /** Requests that accept different encodings are answered with one response, although the policy
      varies on the encoding, if and only if neither spells the name in lower case. */
  lemma {:induction false} WrongEncodingIff(
      cap: nat, p: CachePolicy, a: Delivery, i: nat, resp: Response, at: int, b: Delivery, j: nat, out: Response,
      now: int)
    requires Proper(a) && Proper(b) && a.wire.verb == b.wire.verb && a.wire.path == b.wire.path
    requires OnlyField(a.wire.headers, i, "accept-encoding") && a.wire.headers[i].1 != ""
    requires OnlyField(b.wire.headers, j, "accept-encoding") && b.wire.headers[j].1 != ""
    requires a.wire.headers[i].1 != b.wire.headers[j].1
    requires CacheableWire(a.wire, p) && CacheableWire(b.wire, p) && p.varyAcceptEncoding
    requires Storable(resp, at, cap, p) && InWindow(at, now, p)
    ensures Answer(Serve(cap, p, [Event.After(Received(a), resp, at)]), p, Received(b), out, now).0 <==>
            a.wire.headers[i].0 != "accept-encoding" && b.wire.headers[j].0 != "accept-encoding"
  {
    hide Received, Proper, Answer, Serve, CacheableWire, Storable, OnlyField, Field, InWindow;
    SharedOnTheWireIff(cap, p, a, resp, at, b, out, now);
    FieldSeen(a.wire.headers, i, "accept-encoding");
    FieldSeen(b.wire.headers, j, "accept-encoding");
  }

  /** The query is no part of the key: a request that differs in it alone gets the stored response. */
  lemma {:induction false} OtherQueryIsServed(
      cap: nat, p: CachePolicy, a: Delivery, resp: Response, at: int, query: Pairs, out: Response, now: int)
    requires Proper(a) && InWindow(at, now, p) && forall i :: 0 <= i < |query| ==> QueryPair(query[i])
    requires CacheableWire(a.wire, p) && Storable(resp, at, cap, p)
    ensures var b := a.(wire := a.wire.(query := query));
            Answer(Serve(cap, p, [Event.After(Received(a), resp, at)]), p, Received(b), out, now).0
  {
    hide Received, Answer, Serve, Storable, QueryPair, HeaderPair, AddAll, Field, InWindow, BytesAsked;
    var b := a.(wire := a.wire.(query := query));
    SharedOnTheWireIff(cap, p, a, resp, at, b, out, now);
  }
}
