# An HTTP server, its response cache and a URL shortener: a verified model

This project models the stateful cores of an HTTP/1.x server framework and of the URL shortener
built on it, and proves what they guarantee over whole runs.

- **Request parsing** (`HttpContext.dfy`, `HttpRequest.dfy`, `HttpServer.dfy`, `Fragmentation.dfy`,
  `KeepAlive.dfy`, `RoundTrip.dfy`, `StaleBody.dfy`): the incremental parser and the message handler
  that drives it. TCP cuts are invisible, printed requests come back unchanged (request line, fields
  and body length of sections 3, 5 and 6.3 of RFC 9112), and a kept-alive, pipelined connection
  serves its stream in order.
- **Response cache** (`MemoryCacheLRU.dfy`, `LruRuns.dfy`, `HttpResponse.dfy`, `CacheMiddleware.dfy`,
  `CacheRuns.dfy`, `FieldNames.dfy`): a byte-bounded LRU list with its map and counter, and the middleware with its
  fresh and stale windows (section 3 of RFC 5861; Warning 110 of section 5.5.1 of RFC 7234).
- **Rate limiter** (`RateLimiter.dfy`): the token bucket equals a minimum over all past windows.
- **Cache-aside store** (`CacheAsideStore.dfy`): interleaved atomic steps on MySQL and Redis.
- **Connection pool** (`DbConnectionPool.dfy`): critical sections under a mutex and a condition
  variable.
- **Hash ring** (`HashRing.dfy`, `Hashing.dfy`): minimal remapping.
- **Filter, sharded store, handlers** (`Bloom.dfy`, `MemoryStore.dfy`, `ShortenBody.dfy`,
  `Handlers.dfy`): permanent links behind a transparent prefilter.

Each source object is a class whose methods update its fields in place. A method's contract ties the
new state to a function of the old one, and the lemmas prove what the source promises about those
functions over every input, run or interleaving. `hide` statements in lemmas only keep definitions
out of a proof that does not need them.

`dafny verify dfyconfig.toml` checks the whole project.

## What the code does not keep

Where a promise fails in the code, the model keeps the code, and lemmas say exactly when it holds.

- One message event dispatches one request, so a second request in the same segment waits for a
  later event: never exactly when no event completes two (`KeepAlive.NoStallIff`), and in general by
  a closed form (`KeepAlive.DispatchClosedForm`; on the wire, `RoundTrip.PipelinedRequestWaits`).
- `reset` leaves the old body and its length in the request: they show exactly when the next request
  brings none (`StaleBody.ResetForgetsIff`).
- A negative Content-Length is taken for a huge one: a request comes back exactly when as many bytes
  are asked for as its body has (`RoundTrip.PrintParseIff`, `RoundTrip.LengthLineLaw`; on the wire,
  `RoundTrip.NegativeLengthWaits`).
- A status line longer than its 64-byte buffer does not survive the cache
  (`HttpResponses.StatusLineRoundTripIff`, `HttpResponses.LongVersionIsLost`).
- Field names are compared with their case. A request with credentials is kept out of the cache
  exactly if it spells `authorization` in lower case (`FieldNames.CredentialsKeptOutIff`), requests
  for different encodings are kept apart exactly if one spells `accept-encoding` so
  (`FieldNames.WrongEncodingIff`), which most clients do not (`FieldNames.UsualAuthorization`,
  `FieldNames.UsualAcceptEncoding`), and a body's length is seen exactly in a field spelled
  `Content-Length` (`FieldNames.LengthSeenIff`).
- The cache key field `pathAndQuery` holds no query, so a response is served for other queries
  (`CacheRuns.SharedIff`; on the wire, `FieldNames.OtherQueryIsServed`).
- A link is served beyond its ttl exactly by writes to Redis that, when they arrive, outlive the row
  (`CacheAside.LateOnlyByOverlongWrite`, `CacheAside.ServedLateIff`): backfills, which reach up to
  the backfill time (`CacheAside.BoundIsReached`), and publishes that come late after their INSERT
  (`CacheAside.OverlongPublishIff`, `CacheAside.SlowPublishIsLate`).
- A `del`, `set` or `setNX` settles what its key serves exactly when, at its last step, no live row
  and no other call on its way to Redis has another value (`CacheAside.DeleteIsFinalIff`,
  `CacheAside.SetIsFinalIff`; the failing family, `CacheAside.DeletedValueComesBack`).
- A clock reading of zero makes a bucket new: calls are limited exactly by the windows that begin
  after the last such reading (`RateLimiting.AdmittedIff`, `RateLimiting.ZeroClockNeverRefuses`).
- The body reader knows no JSON escapes: a url posted in a document of a url and a ttl, in either
  order, or of a url alone, with any blanks and no needless escapes, comes through exactly when no
  character of it has to be escaped (`ShortenBodies.BodyRoundTripIff`), which the validator does not
  ensure (`ShortenBodies.ValidUrlChanges`).
- The prefilter is transparent exactly when it denies no stored id (`Handlers.TransparentIff`): always
  over a store that started empty with it, and never for a fresh filter over stored links
  (`Handlers.FilterIsTransparent`, `Handlers.FreshFilterIff`).
- A pool initialized with size zero lets its callers sleep forever
  (`ConnectionPools.SleeperIsServedIff`, `ConnectionPools.EmptyPoolSleeper`).

## Model

| member | source | states |
|---|---|---|
| Fragmentation.FragmentationIsInvisible | url_shortener_redis_mysql_release/Kama-HTTPServer-main/HttpServer/src/http/HttpContext.cpp:10-116 | Cutting the byte stream into any chunks and parsing after each gives the verdict, state, request (apart from its receive time) and unread bytes of one call on the whole stream, whether the answer is good, bad, an exception or a wait |
| Fragmentation.SplitsAgree | url_shortener_redis_mysql_release/Kama-HTTPServer-main/HttpServer/src/http/HttpContext.cpp:10-116 | Two different cuts of one stream cannot be told apart |
| Fragmentation.ParseExtend | url_shortener_redis_mysql_release/Kama-HTTPServer-main/HttpServer/src/http/HttpContext.cpp:10-116 | Bytes that arrive later are picked up by a waiting parser where it stopped, and left untouched by a parser that has answered |
| Fragmentation.ParseUntimed | url_shortener_redis_mysql_release/Kama-HTTPServer-main/HttpServer/src/http/HttpContext.cpp:24-24 | The clock reaches nothing but the receive time |
| Fragmentation.ParseEatsFromTheFront | url_shortener_redis_mysql_release/Kama-HTTPServer-main/HttpServer/src/http/HttpContext.cpp:25-109 | What a call leaves in the buffer is the end of what it was given |
| HttpParsing.TurnShrinks | url_shortener_redis_mysql_release/Kama-HTTPServer-main/HttpServer/src/http/HttpContext.cpp:14-114 | A turn of the loop either stops it or eats bytes, except on a finished request: there a turn changes nothing, so the loop stops if and only if it was not called in kGotAll |
| KeepAlive.RunServes | url_shortener_redis_mysql_release/Kama-HTTPServer-main/HttpServer/src/http/HttpServer.cpp:122-141 | Conservation over a run of message events, errors included: the requests contained in the bytes received are the dispatched ones in order, followed by those still pending |
| KeepAlive.DispatchesAreAPrefix | url_shortener_redis_mysql_release/Kama-HTTPServer-main/HttpServer/src/http/HttpServer.cpp:122-141 | Dispatched requests are a prefix of those of the concatenated stream, and all of them if the connection was rejected |
| KeepAlive.RunConservesBytes | url_shortener_redis_mysql_release/Kama-HTTPServer-main/HttpServer/src/http/HttpServer.cpp:122-134 | Bytes eaten so far followed by the buffer equal the bytes read; a run without a rejection reads every event |
| KeepAlive.RejectedIff | url_shortener_redis_mysql_release/Kama-HTTPServer-main/HttpServer/src/http/HttpServer.cpp:123-141 | A connection is answered 400, once, if and only if one of its events meets the bad part: the bytes received by then are bad, and every complete request among them was dispatched by earlier events |
| KeepAlive.RejectionLaw | url_shortener_redis_mysql_release/Kama-HTTPServer-main/HttpServer/src/http/HttpServer.cpp:123-141 | The same for one event after any run |
| KeepAlive.RunVerdict | url_shortener_redis_mysql_release/Kama-HTTPServer-main/HttpServer/src/http/HttpServer.cpp:123-128 | A run without a 400 leaves the verdict of the whole stream to the bytes still in the buffer; a run with one had a stream that the one-call reference rejects too |
| KeepAlive.DispatchLaw | url_shortener_redis_mysql_release/Kama-HTTPServer-main/HttpServer/src/http/HttpServer.cpp:122-134 | After an event, the number dispatched is the smaller of one more than before and the number of complete requests received |
| KeepAlive.DispatchClosedForm | url_shortener_redis_mysql_release/Kama-HTTPServer-main/HttpServer/src/http/HttpServer.cpp:122-134 | Over a whole run, rejected or not, the number dispatched is the minimum, over all earlier points, of the requests complete there plus one for every event since |
| KeepAlive.NoStallIff | url_shortener_redis_mysql_release/Kama-HTTPServer-main/HttpServer/src/http/HttpServer.cpp:130-134 | Requests never wait for a later event if and only if no event completes two requests |
| KeepAlive.WaitingIsStable | url_shortener_redis_mysql_release/Kama-HTTPServer-main/HttpServer/src/http/HttpContext.cpp:98-102 | A waiting parser has no complete request left in its buffer |
| RoundTrip.PrintParse | url_shortener_redis_mysql_release/Kama-HTTPServer-main/HttpServer/src/http/HttpContext.cpp:10-161 | Printing any well-formed request and parsing it, with anything behind it, gives back method, path, version, query map, header map and body, and stops at the next byte |
| RoundTrip.PrintParseIff | url_shortener_redis_mysql_release/Kama-HTTPServer-main/HttpServer/src/http/HttpContext.cpp:10-161 | A request with a well-formed head comes back, with anything behind it, if and only if the body is as long as its Content-Length asks for, or is empty for a method without one |
| RoundTrip.LengthLineLaw | url_shortener_redis_mysql_release/Kama-HTTPServer-main/HttpServer/src/http/HttpContext.cpp:50-102 | The empty line of a POST or PUT: without a Content-Length it is a syntax error, with one that is no int an exception, and otherwise the request completes if and only if as many bytes are there as the length asks for, a negative one asking for 2^64 more |
| RoundTrip.HeaderLineLaw | url_shortener_redis_mysql_release/Kama-HTTPServer-main/HttpServer/src/http/HttpContext.cpp:33-87 | Any other header line: without a colon it is a syntax error, its bytes eaten; with one it adds the field named by the text before the first colon, with the text behind it less the blanks at its ends |
| RoundTrip.ColonlessLineIsRejected | url_shortener_redis_mysql_release/Kama-HTTPServer-main/HttpServer/src/http/HttpServer.cpp:123-128 | On the wire: a request with a header line without a colon is answered 400 and not dispatched, in whatever events it arrives |
| RoundTrip.BadRequestLineIsRejected | url_shortener_redis_mysql_release/Kama-HTTPServer-main/HttpServer/src/http/HttpServer.cpp:123-128 | On the wire: so is a first line that is no request line |
| RoundTrip.BadStartIsRejected | url_shortener_redis_mysql_release/Kama-HTTPServer-main/HttpServer/src/http/HttpServer.cpp:123-128 | And so is every stream that is bad before any request is complete |
| RoundTrip.LineAcceptedIff | url_shortener_redis_mysql_release/Kama-HTTPServer-main/HttpServer/src/http/HttpContext.cpp:119-161 | A request line is accepted exactly when it is a known method, a target without spaces and version 1.0 or 1.1, separated by single spaces |
| RoundTrip.RefusedLineLaw | url_shortener_redis_mysql_release/Kama-HTTPServer-main/HttpServer/src/http/HttpContext.cpp:16-30 | A refused request line stays in the buffer, and the request keeps the method and target read before the fault |
| RoundTrip.QueryRoundTrip | url_shortener_redis_mysql_release/Kama-HTTPServer-main/HttpServer/src/http/HttpRequest.cpp:75-106 | A printed query string, wherever it stands, adds exactly its pairs, later ones winning |
| RoundTrip.QueryLaws | url_shortener_redis_mysql_release/Kama-HTTPServer-main/HttpServer/src/http/HttpRequest.cpp:75-106 | Any query string, piece by piece: each piece up to an ampersand adds the pair cut at its first equals sign, and a piece without one adds nothing |
| RoundTrip.HeadersRoundTrip | url_shortener_redis_mysql_release/Kama-HTTPServer-main/HttpServer/src/http/HttpContext.cpp:38-46 | Printed header lines leave exactly their map, whatever follows them |
| RoundTrip.PrintedLengthIsExact | url_shortener_redis_mysql_release/Kama-HTTPServer-main/HttpServer/src/http/HttpContext.cpp:55-63 | A client that appends its body's printed length meets the length condition of the round trip, up to the largest int |
| RoundTrip.NegativeLengthWaits | url_shortener_redis_mysql_release/Kama-HTTPServer-main/HttpServer/src/http/HttpContext.cpp:58-102 | The failing family on the wire: a printed request that announces -1 is kept waiting whatever body it sends, short of 2^64 - 1 bytes |
| RoundTrip.AllRequestsOfPrinted | url_shortener_redis_mysql_release/Kama-HTTPServer-main/HttpServer/src/http/HttpServer.cpp:122-134 | A pipelined stream of printed requests parses to their meanings in order, without an error |
| RoundTrip.PrintedRequestsAreServed | url_shortener_redis_mysql_release/Kama-HTTPServer-main/HttpServer/src/http/HttpServer.cpp:122-134 | End to end: well-formed clients are never rejected, and what is dispatched and pending is what they printed, for every cut into events |
| RoundTrip.PipelinedRequestWaits | url_shortener_redis_mysql_release/Kama-HTTPServer-main/HttpServer/src/http/HttpServer.cpp:129-134 | Two requests in one event: one is dispatched, the other is left waiting |
| StaleBody.ResetForgetsIff | url_shortener_redis_mysql_release/Kama-HTTPServer-main/HttpServer/src/http/HttpRequest.cpp:135-144 | A reset parser agrees with a new one on everything but the body and its length: on the body exactly when the request reads one of its own or none was left behind, on the length exactly when the method has one or none was left behind |
| StaleBody.GetShowsEarlierBody | url_shortener_redis_mysql_release/Kama-HTTPServer-main/HttpServer/src/http/HttpRequest.cpp:135-144 | The failing family: a GET that follows a POST on one connection is dispatched with the POST's body and length |
| HttpParsing.HttpContext.ParseRequest | url_shortener_redis_mysql_release/Kama-HTTPServer-main/HttpServer/src/http/HttpContext.cpp:10-116 | The loop, updating state, request and buffer in place, ends with the outcome whose laws are above |
| HttpParsing.HttpContext.ProcessRequestLine | url_shortener_redis_mysql_release/Kama-HTTPServer-main/HttpServer/src/http/HttpContext.cpp:119-161 | Accepts and fills in what the request-line function says, leaving on failure what the code leaves |
| HttpParsing.HttpContext.ProcessEmptyLine | url_shortener_redis_mysql_release/Kama-HTTPServer-main/HttpServer/src/http/HttpContext.cpp:50-82 | The end of the headers: body, done, syntax error or stoi exception |
| HttpParsing.HttpContext.Reset | url_shortener_redis_mysql_release/Kama-HTTPServer-main/HttpServer/include/http/HttpContext.h:31-36 | Everything of the request is new again but its body and content length |
| HttpServing.Connection.OnMessage | url_shortener_redis_mysql_release/Kama-HTTPServer-main/HttpServer/src/http/HttpServer.cpp:86-143 | One event parses once, dispatches at most once and resets; unless it rejects, the next parse's precondition holds again |
| HttpServing.ParseKeepsReady | url_shortener_redis_mysql_release/Kama-HTTPServer-main/HttpServer/src/http/HttpContext.cpp:10-116 | A call that asks for more leaves a context in which the next call neither loops forever nor meets a set method |
| HttpRequests.HttpRequest.SetMethod | url_shortener_redis_mysql_release/Kama-HTTPServer-main/HttpServer/src/http/HttpRequest.cpp:12-42 | Five methods are known, HEAD is not; the caller must come with none set |
| HttpRequests.HttpRequest.SetQueryParameters | url_shortener_redis_mysql_release/Kama-HTTPServer-main/HttpServer/src/http/HttpRequest.cpp:75-106 | The splitting loop adds the pairs between ampersands and drops pieces without an equals sign |
| HttpRequests.HttpRequest.AddHeader | url_shortener_redis_mysql_release/Kama-HTTPServer-main/HttpServer/src/http/HttpRequest.cpp:108-122 | Key up to the colon as it is, value without the blanks at its ends |
| HttpRequests.HttpRequest.Swap | url_shortener_redis_mysql_release/Kama-HTTPServer-main/HttpServer/src/http/HttpRequest.cpp:135-144 | Exchanges every field except the body and its length, also with itself |
| Text.TrimIs | url_shortener_redis_mysql_release/Kama-HTTPServer-main/HttpServer/src/http/HttpRequest.cpp:111-120 | Trimming removes the blanks at the two ends and nothing else |
| Text.StoiDecimal | url_shortener_redis_mysql_release/Kama-HTTPServer-main/HttpServer/src/http/HttpContext.cpp:58-58 | Reading a printed length gives the length back |
| Text.StoiIff | url_shortener_redis_mysql_release/Kama-HTTPServer-main/HttpServer/src/http/HttpContext.cpp:58-58 | The length that any text stands for: a number is read if and only if the text starts with blanks, a sign or none, and digits of a 32-bit number; anything may follow |
| Text.DigitsAre | url_shortener_redis_mysql_release/apps/url_shortener/include/app/HashRing.h:15-15 | Printed numbers have no leading zero, and digits read with their place values |
| Text.LowerIs | url_shortener_redis_mysql_release/apps/url_shortener/include/app/UrlValidator.h:9-9 | Comparing in any case maps the 26 letters and nothing else |
| Text.NoDigits | url_shortener_redis_mysql_release/Kama-HTTPServer-main/HttpCache/src/CacheMiddleware.cpp:57-57 | A text without a digit reads as no length and as status 0 |
| LruRuns.WorkingSetStays | url_shortener_redis_mysql_release/Kama-HTTPServer-main/HttpCache/src/MemoryCacheLRU.cpp:8-61 | A key just hit or accepted stays present, through any operations that do not remove it, while the largest sizes of the distinct keys used since (itself included) fit the capacity; the entries ahead of it are among those keys |
| LruRuns.EvictionIsExact | url_shortener_redis_mysql_release/Kama-HTTPServer-main/HttpCache/src/MemoryCacheLRU.cpp:8-41 | An accepted set leaves the longest prefix of the updated recency list that fits the capacity, and the entry just written is first in it |
| LruCache.BytesAreCharacters | url_shortener_redis_mysql_release/Kama-HTTPServer-main/HttpCache/include/http_cache/CacheEntry.h:18-22 | The size of an entry is the number of characters of its status line, body, header names and header values |
| LruRuns.RunInOrder | url_shortener_redis_mysql_release/Kama-HTTPServer-main/HttpCache/src/MemoryCacheLRU.cpp:20-40 | After any run the list is in order of last use, so what is cut from its end was used longest ago |
| LruRuns.RunRefines | url_shortener_redis_mysql_release/Kama-HTTPServer-main/HttpCache/src/MemoryCacheLRU.cpp:16-61 | Over any run no key is twice in the list, the bytes stay within the capacity, and every hit is the value an unbounded map that ignores oversized sets would give |
| LruCache.MemoryCacheLRU.Get | url_shortener_redis_mysql_release/Kama-HTTPServer-main/HttpCache/src/MemoryCacheLRU.cpp:16-22 | Returns the entry of the key and moves its node, and only that, to the front |
| LruCache.MemoryCacheLRU.Set | url_shortener_redis_mysql_release/Kama-HTTPServer-main/HttpCache/src/MemoryCacheLRU.cpp:24-41 | List, map and byte count agree afterwards; oversized entries change nothing; the counter never holds more than twice the capacity |
| LruCache.MemoryCacheLRU.EvictIfNeeded | url_shortener_redis_mysql_release/Kama-HTTPServer-main/HttpCache/src/MemoryCacheLRU.cpp:8-14 | From exact links and an exact count over the capacity to the same within it, without underflow |
| LruCache.MemoryCacheLRU.Del | url_shortener_redis_mysql_release/Kama-HTTPServer-main/HttpCache/src/MemoryCacheLRU.cpp:43-50 | Takes the key out of list, map and count together |
| LruCache.MemoryCacheLRU.PurgePrefix | url_shortener_redis_mysql_release/Kama-HTTPServer-main/HttpCache/src/MemoryCacheLRU.cpp:52-61 | Erasing while walking the list leaves exactly the entries whose path does not start with the prefix, in order |
| CacheRuns.HitIsLatestResponse | url_shortener_redis_mysql_release/Kama-HTTPServer-main/HttpCache/src/CacheMiddleware.cpp:50-128 | Whenever before answers, it answers with headers and body of the latest accepted response of an equal key, inside its fresh or stale window, with Warning added exactly when stale; version, status and reason are the stored ones if and only if the version fits the 64-byte buffer |
| CacheRuns.WorkingSetIsServed | url_shortener_redis_mysql_release/Kama-HTTPServer-main/HttpCache/src/CacheMiddleware.cpp:102-120 | The converse across middleware and store: inside its window the latest accepted response is answered from the cache while the keys used since its entry was last renewed, by the acceptance or any later hit, fit the capacity |
| CacheRuns.EntryIsLatest | url_shortener_redis_mysql_release/Kama-HTTPServer-main/HttpCache/src/CacheMiddleware.cpp:122-128 | Every entry of the store, at any point of a run, was packed from the latest accepted response for its key, with no purge of it since |
| CacheRuns.StoredIff | url_shortener_redis_mysql_release/Kama-HTTPServer-main/HttpCache/src/CacheMiddleware.cpp:67-128 | On any store: a response is stored, in front, if and only if its request has no credentials that count, method and status are ones the policy caches, Cache-Control says no no-store that counts, and its characters fit both limits; otherwise the store stays as it is |
| CacheRuns.HitsObeyPolicy | url_shortener_redis_mysql_release/Kama-HTTPServer-main/HttpCache/src/CacheMiddleware.cpp:74-128 | In any run no hit says no-store while the policy respects it, and each hit is a response that the policy takes |
| CacheRuns.AnsweredIff | url_shortener_redis_mysql_release/Kama-HTTPServer-main/HttpCache/src/CacheMiddleware.cpp:102-120 | On any store: before answers if and only if the request is one the policy takes and the entry of its key is fresh or in its stale window, and otherwise leaves the response alone |
| CacheRuns.BeforeTouches | url_shortener_redis_mysql_release/Kama-HTTPServer-main/HttpCache/src/CacheMiddleware.cpp:102-107 | On any store: a request that the policy takes moves the entry of its key to the front, fresh or not, and any other touches nothing |
| CacheRuns.HitRenews | url_shortener_redis_mysql_release/Kama-HTTPServer-main/HttpCache/src/CacheMiddleware.cpp:106-107 | A cacheable request for a stored key renews the entry, also an expired one |
| CacheRuns.SharedIff | url_shortener_redis_mysql_release/Kama-HTTPServer-main/HttpCache/src/CacheMiddleware.cpp:81-120 | A response stored for one request answers another if and only if that one is cacheable, comes inside the window, and agrees in method, path and (if varied on) the value of the field spelled `accept-encoding`, whatever its query |
| FieldNames.SharedOnTheWireIff | url_shortener_redis_mysql_release/Kama-HTTPServer-main/HttpCache/src/CacheMiddleware.cpp:81-120 | The same from printed request to printed request, through the parser |
| FieldNames.KeyOnTheWire | url_shortener_redis_mysql_release/Kama-HTTPServer-main/HttpCache/src/CacheMiddleware.cpp:14-29 | The key of a printed request holds its method and path as printed |
| FieldNames.CacheableOnTheWireIff | url_shortener_redis_mysql_release/Kama-HTTPServer-main/HttpCache/src/CacheMiddleware.cpp:67-73 | A printed request is taken up by the cache if and only if it is a GET without a field spelled `authorization` that has a value, or the policy asks for less |
| FieldNames.CredentialsKeptOutIff | url_shortener_redis_mysql_release/Kama-HTTPServer-main/HttpCache/src/CacheMiddleware.cpp:67-68 | A request with credentials is kept out of the cache if and only if it spells the field in lower case |
| FieldNames.WrongEncodingIff | url_shortener_redis_mysql_release/Kama-HTTPServer-main/HttpCache/src/CacheMiddleware.cpp:81-87 | Requests for different encodings share a response, although the policy varies on them, if and only if neither spells the field in lower case |
| FieldNames.OtherQueryIsServed | url_shortener_redis_mysql_release/Kama-HTTPServer-main/HttpCache/src/CacheMiddleware.cpp:26-26 | A request that differs in its query alone is answered with the stored response |
| FieldNames.LengthSeenIff | url_shortener_redis_mysql_release/Kama-HTTPServer-main/HttpServer/src/http/HttpContext.cpp:55-73 | A body announced exactly, once, comes back if the field is spelled `Content-Length`, and in any other case the request is a syntax error |
| FieldNames.FieldSeen | url_shortener_redis_mysql_release/Kama-HTTPServer-main/HttpServer/src/http/HttpRequest.cpp:108-122 | A field that occurs once is seen under a name if and only if it is spelled like it |
| CacheMiddlewares.CacheMiddleware.Before | url_shortener_redis_mysql_release/Kama-HTTPServer-main/HttpCache/src/CacheMiddleware.cpp:102-120 | Touches the store and fills the response as the run results assume |
| CacheMiddlewares.CacheMiddleware.After | url_shortener_redis_mysql_release/Kama-HTTPServer-main/HttpCache/src/CacheMiddleware.cpp:122-128 | Stores the packed response only if request, response and size are acceptable, and leaves the response alone |
| CacheMiddlewares.CacheMiddleware.SetFromEntry | url_shortener_redis_mysql_release/Kama-HTTPServer-main/HttpCache/src/CacheMiddleware.cpp:50-65 | Status line read back with the defaults of the code, headers replaced, body set |
| HttpResponses.StatusLineRoundTripIff | url_shortener_redis_mysql_release/Kama-HTTPServer-main/HttpServer/include/http/HttpResponse.h:79-82 | A packed status line reads back as it was if and only if the version has no space or NUL and fits the buffer with the code, or is cut where the defaults complete it |
| HttpResponses.DefaultsRead | url_shortener_redis_mysql_release/Kama-HTTPServer-main/HttpCache/src/CacheMiddleware.cpp:50-61 | A status line without a space reads as HTTP/1.1 200 OK, and one with a single space keeps its version |
| HttpResponses.LongVersionIsLost | url_shortener_redis_mysql_release/Kama-HTTPServer-main/HttpServer/include/http/HttpResponse.h:79-82 | The failing family: a version of more than 62 bytes |
| HttpResponses.HeaderListRoundTrip | url_shortener_redis_mysql_release/Kama-HTTPServer-main/HttpServer/include/http/HttpResponse.h:74-78 | Listing the headers in key order and adding them back one by one changes nothing |
| HttpResponses.HeaderListIsSorted | url_shortener_redis_mysql_release/Kama-HTTPServer-main/HttpServer/include/http/HttpResponse.h:74-78 | The list holds each header once, in the order of the names |
| HttpResponses.LessIff | url_shortener_redis_mysql_release/Kama-HTTPServer-main/HttpServer/include/http/HttpResponse.h:74-78 | That order is the lexicographic one |
| HttpResponses.HttpResponse.HeadersVector | url_shortener_redis_mysql_release/Kama-HTTPServer-main/HttpServer/include/http/HttpResponse.h:74-78 | Walks the map in the order of its keys |
| RateLimiting.TokensAreTheTightestWindow | url_shortener_redis_mysql_release/apps/url_shortener/include/app/RateLimiter.h:12-19 | For any clock readings, in numbers: the running token count is the minimum, over all windows that end at the call and begin after the last zero reading, of burst plus rate times elapsed nanoseconds / 10^9 minus admissions; a clock that never reads zero makes that all windows |
| RateLimiting.AdmittedIff | url_shortener_redis_mysql_release/apps/url_shortener/include/app/RateLimiter.h:18-18 | For any clock readings, in numbers: a call is admitted if and only if admitting it keeps every such window within burst + rate * elapsed nanoseconds / 10^9 |
| RateLimiting.EveryWindowIsBounded | url_shortener_redis_mysql_release/apps/url_shortener/include/app/RateLimiter.h:12-19 | Any window of calls without a zero reading before its last, read in whatever order, admits at most burst + rate * (latest reading - first reading) / 10^9 |
| RateLimiting.SteadyClientIsAdmitted | url_shortener_redis_mysql_release/apps/url_shortener/include/app/RateLimiter.h:12-19 | Calls that come at least a token's time apart are all admitted |
| RateLimiting.DecidedAsIfAlone | url_shortener_redis_mysql_release/apps/url_shortener/include/app/RateLimiter.h:14-14 | In any interleaved traffic a call is decided as if only its own key's calls had been made |
| RateLimiting.ZeroClockNeverRefuses | url_shortener_redis_mysql_release/apps/url_shortener/include/app/RateLimiter.h:15-15 | Calls that each come right after a zero reading, or first, are all admitted, however many, if the burst is at least one |
| RateLimiting.RateLimiter.Allow | url_shortener_redis_mysql_release/apps/url_shortener/include/app/RateLimiter.h:12-19 | One call updates its key's bucket and no other, as the closed form assumes |
| CacheAside.RunAgrees | url_shortener_redis_mysql_release/apps/url_shortener/include/app/CacheAsideStore.h:37-63 | In every interleaving of get and setNX steps, with lost writes, dropped entries and exceptions: rows never change, at most one setNX per key inserts, and Redis, every call under way and every hit give the row's value |
| CacheAside.ObservationsAgree | url_shortener_redis_mysql_release/apps/url_shortener/include/app/CacheAsideStore.h:37-63 | What clients insert and read for one key in a run is one value, inserted once |
| CacheAside.GetLaw | url_shortener_redis_mysql_release/apps/url_shortener/include/app/CacheAsideStore.h:37-53 | What an undisturbed get gives, in numbers: a Redis entry up to and including its deadline, else the MySQL row, for ever without a ttl and else up to and including created + ttl, and then Redis holds its value for the backfill time, else nothing |
| CacheAside.WriteLaws | url_shortener_redis_mysql_release/apps/url_shortener/include/app/CacheAsideStore.h:55-81 | What undisturbed setNX, set and del leave in both stores, with writes that fail or get lost |
| CacheAside.OtherSteps | url_shortener_redis_mysql_release/apps/url_shortener/include/app/CacheAsideStore.h:37-81 | No call skips or repeats a step; an exception ends its own call, and a dropped entry and the clock touch nothing else |
| CacheAside.NeverMissedInTime | url_shortener_redis_mysql_release/apps/url_shortener/include/app/CacheAsideStore.h:37-53 | In every interleaving that does not rewrite or delete its row, no get of a link misses before created + ttl, and none ever misses a link without a ttl |
| CacheAside.RunIsTimely | url_shortener_redis_mysql_release/apps/url_shortener/include/app/CacheAsideStore.h:37-63 | In every interleaving a row with a ttl is served no later than its ttl and a given margin allow, if no write of its key to Redis outlives the row, when it arrives, by more; nothing is asked of other keys |
| CacheAside.HitWithinTtlAndBackfill | url_shortener_redis_mysql_release/apps/url_shortener/include/app/CacheAsideStore.h:37-63 | If the writes of a key come at most a delay after they were decided, a hit at time t implies t <= created + ttl + delay + backfill; for calls at one clock reading the delay is zero, and with a backfill ttl of zero the same holds if the write is refused |
| CacheAside.LateOnlyByOverlongWrite | url_shortener_redis_mysql_release/apps/url_shortener/include/app/CacheAsideStore.h:37-63 | From the start, a link is served later than created + ttl and a margin only if some write of its key to Redis outlived the row by more than the margin when it arrived |
| CacheAside.OverlongPublishIff | url_shortener_redis_mysql_release/apps/url_shortener/include/app/CacheAsideStore.h:55-63 | A publish does so if and only if the row has a ttl and the publish comes later than the margin after its INSERT |
| CacheAside.SlowPublishIsLate | url_shortener_redis_mysql_release/apps/url_shortener/include/app/CacheAsideStore.h:55-63 | The failing family without any backfill: a publish that comes late serves its link as much too late |
| CacheAside.ServedLateIff | url_shortener_redis_mysql_release/apps/url_shortener/include/app/CacheAsideStore.h:37-63 | And every such write, backfill or publish, is a cause: what it writes can be read later than created + ttl and a margin if and only if it outlives the row by more when it arrives |
| CacheAside.BoundIsReached | url_shortener_redis_mysql_release/apps/url_shortener/include/app/CacheAsideStore.h:46-46 | The bound is tight: a link is served for the whole backfill time after its ttl ran out |
| CacheAside.ServesOnlyIff | url_shortener_redis_mysql_release/apps/url_shortener/include/app/CacheAsideStore.h:37-81 | In all interleavings that give a key no new value, it serves one value or none (or nothing at all) if and only if no live row, no live entry and no call on its way to Redis has any other |
| CacheAside.DeleteIsFinalIff | url_shortener_redis_mysql_release/apps/url_shortener/include/app/CacheAsideStore.h:74-81 | After the last step of a del, whatever other calls did meanwhile, the key serves nothing, until it is given a value again, if and only if there is no live row, no other call is on its way to Redis with a value for it and, should the DEL be lost, no live entry is there |
| CacheAside.SetIsFinalIff | url_shortener_redis_mysql_release/apps/url_shortener/include/app/CacheAsideStore.h:55-72 | After the last step of a set or setNX, whatever other calls did meanwhile, no other value is served, until one is given, if and only if no live row has another, no other call is on its way to Redis with another and, should the write be lost, no live entry has another |
| CacheAside.UninterruptedDelete | url_shortener_redis_mysql_release/apps/url_shortener/include/app/CacheAsideStore.h:74-81 | The same for a del that is not interrupted, with the condition taken before it |
| CacheAside.UninterruptedSet | url_shortener_redis_mysql_release/apps/url_shortener/include/app/CacheAsideStore.h:65-72 | The same for a set that is not interrupted, with the condition taken before it |
| CacheAside.DeletedValueComesBack | url_shortener_redis_mysql_release/apps/url_shortener/include/app/CacheAsideStore.h:74-81 | The failing family: a reader between MySQL and Redis brings a deleted value back, for calls that start after the del |
| CacheAside.CacheAsideStore.Get | url_shortener_redis_mysql_release/apps/url_shortener/include/app/CacheAsideStore.h:37-53 | A call is its three steps in the order of the source, with replies and writes that get lost; a missing store is skipped |
| CacheAside.CacheAsideStore.SetNX | url_shortener_redis_mysql_release/apps/url_shortener/include/app/CacheAsideStore.h:55-63 | Insert first, publish only if inserted, whatever becomes of the write to Redis; without MySQL it always succeeds |
| CacheAside.CacheAsideStore.Set | url_shortener_redis_mysql_release/apps/url_shortener/include/app/CacheAsideStore.h:65-72 | REPLACE, then SET: the two steps of set, whatever becomes of the second |
| CacheAside.CacheAsideStore.Del | url_shortener_redis_mysql_release/apps/url_shortener/include/app/CacheAsideStore.h:74-81 | DELETE, then DEL: the two steps of del, whatever becomes of the second |
| CacheAside.MySqlStore.Get | url_shortener_redis_mysql_release/apps/url_shortener/include/app/MySqlStore.h:29-40 | A row is found up to and including the second its ttl ends; expired rows stay |
| CacheAside.MySqlStore.SetNX | url_shortener_redis_mysql_release/apps/url_shortener/include/app/MySqlStore.h:41-49 | Inserts exactly when no row, live or expired, has the key and the INSERT does not fail otherwise |
| CacheAside.RedisStore.Set | url_shortener_redis_mysql_release/apps/url_shortener/include/app/RedisStore.h:23-27 | Overwrites the entry and its deadline, or is lost |
| ConnectionPools.EveryReachableStateIsSound | url_shortener_redis_mysql_release/Kama-HTTPServer-main/HttpServer/src/utils/db/DbConnectionPool.cpp:10-102 | In every reachable state each connection created is in exactly one place, queued, checked by one thread or lent out, and while a thread sleeps the woken threads number at least the queue length |
| ConnectionPools.SleepersHaveHope | url_shortener_redis_mysql_release/Kama-HTTPServer-main/HttpServer/src/utils/db/DbConnectionPool.cpp:62-70 | While a thread sleeps, a connection is in use or a woken thread exists that gets one, if and only if the pool has any connection (init with size 0 makes none) |
| ConnectionPools.SleeperIsServedIff | url_shortener_redis_mysql_release/Kama-HTTPServer-main/HttpServer/src/utils/db/DbConnectionPool.cpp:10-102 | No deadlock: from every reachable state each sleeper can still be lent a connection, with no spurious wakeup, if and only if the pool has any |
| ConnectionPools.EmptyPoolSleeper | url_shortener_redis_mysql_release/Kama-HTTPServer-main/HttpServer/src/utils/db/DbConnectionPool.cpp:10-36 | The failing case is reached: init with size zero and one call |
| ConnectionPools.TakenInOrder | url_shortener_redis_mysql_release/Kama-HTTPServer-main/HttpServer/src/utils/db/DbConnectionPool.cpp:10-102 | First in, first out, over every run: the connections put into the queue, in order, are those taken out, in order, and then those still in it |
| ConnectionPools.CallerSleepsIff | url_shortener_redis_mysql_release/Kama-HTTPServer-main/HttpServer/src/utils/db/DbConnectionPool.cpp:56-74 | In every reachable state a caller sleeps if and only if the queue is empty and some init has gone through; before that, also after a failed init, it leaves with an exception and no trace, and with a connection there it gets the first |
| ConnectionPools.WakesOne | url_shortener_redis_mysql_release/Kama-HTTPServer-main/HttpServer/src/utils/db/DbConnectionPool.cpp:85-90 | A connection that comes back goes to the end of the queue and wakes exactly one sleeper, if there is one |
| ConnectionPools.ThreadsStayInside | url_shortener_redis_mysql_release/Kama-HTTPServer-main/HttpServer/src/utils/db/DbConnectionPool.cpp:56-102 | No thread gets lost: each step lets only its own thread in or out of getConnection, with the connection it checked lent or put back |
| ConnectionPools.RunIsSound | url_shortener_redis_mysql_release/Kama-HTTPServer-main/HttpServer/src/utils/db/DbConnectionPool.cpp:56-102 | The same from any state that satisfies it, with stealing newcomers, failed checks, failed initializations and spurious wakeups |
| ConnectionPools.StepConserves | url_shortener_redis_mysql_release/Kama-HTTPServer-main/HttpServer/src/utils/db/DbConnectionPool.cpp:56-102 | No step loses, duplicates or shares a connection |
| ConnectionPools.StepKeepsWakeups | url_shortener_redis_mysql_release/Kama-HTTPServer-main/HttpServer/src/utils/db/DbConnectionPool.cpp:62-99 | No step lets sleepers outlast the queue |
| ConnectionPools.DbConnectionPool.InitPool | url_shortener_redis_mysql_release/Kama-HTTPServer-main/HttpServer/src/utils/db/DbConnectionPool.cpp:10-37 | Runs once; a creation that throws leaves the connections made so far and the pool uninitialized |
| ConnectionPools.DbConnectionPool.GetConnection | url_shortener_redis_mysql_release/Kama-HTTPServer-main/HttpServer/src/utils/db/DbConnectionPool.cpp:56-74 | Pops the front, sleeps, or throws if never initialized |
| ConnectionPools.DbConnectionPool.AfterWakeup | url_shortener_redis_mysql_release/Kama-HTTPServer-main/HttpServer/src/utils/db/DbConnectionPool.cpp:62-73 | A woken thread looks at the queue again before it takes anything |
| ConnectionPools.DbConnectionPool.FinishCheck | url_shortener_redis_mysql_release/Kama-HTTPServer-main/HttpServer/src/utils/db/DbConnectionPool.cpp:76-101 | Lends the checked connection, or puts it back, notifies and throws |
| ConnectionPools.DbConnectionPool.ReleaseConnection | url_shortener_redis_mysql_release/Kama-HTTPServer-main/HttpServer/src/utils/db/DbConnectionPool.cpp:85-90 | The deleter puts the connection back and wakes one sleeper if there is one |
| HashRings.OnlyNewShardsGainKeys | url_shortener_redis_mysql_release/apps/url_shortener/include/app/HashRing.h:10-27 | Growing from n to m shards moves a key only to a shard from n on, for every hash function and replica count, overwritten collisions included |
| HashRings.OnlyLostShardsLoseKeys | url_shortener_redis_mysql_release/apps/url_shortener/include/app/HashRing.h:10-27 | Shrinking moves only the keys of the shards that go |
| HashRings.PickInRange | url_shortener_redis_mysql_release/apps/url_shortener/include/app/HashRing.h:21-27 | A pick is a shard of the ring; an empty ring gives shard 0 |
| HashRings.RingIs | url_shortener_redis_mysql_release/apps/url_shortener/include/app/HashRing.h:10-19 | For every hash: the ring holds exactly the points of the nodes node<s>#<r>, and each belongs to the last shard with a node there |
| HashRings.PickIsFirstFrom | url_shortener_redis_mysql_release/apps/url_shortener/include/app/HashRing.h:21-27 | A pick belongs to the first point at or after the hash, or, if there is none, to the first point of all |
| HashRings.NodeNamesDiffer | url_shortener_redis_mysql_release/apps/url_shortener/include/app/HashRing.h:15-15 | Different nodes have different names |
| HashRings.KeysHashApart | url_shortener_redis_mysql_release/apps/url_shortener/include/app/HashRing.h:29-37 | Keys that differ in one byte alone have different hashes, and the hash of `a` is 4953267810257967366 |
| HashRings.HashRing.BuildRing | url_shortener_redis_mysql_release/apps/url_shortener/include/app/HashRing.h:10-19 | The nested loops build the ring in which later nodes overwrite earlier ones on the same point |
| HashRings.HashRing.PickShard | url_shortener_redis_mysql_release/apps/url_shortener/include/app/HashRing.h:21-27 | Lower bound with wrap-around: the owner of the first point at or after the hash, else of the first point |
| Handlers.FilterIsTransparent | url_shortener_redis_mysql_release/apps/url_shortener/src/RouterSetup.cpp:37-53 | After any run from an empty store, every redirect is answered as it would be without the filter |
| Handlers.TransparentIff | url_shortener_redis_mysql_release/apps/url_shortener/src/RouterSetup.cpp:37-53 | In any state, redirects are answered as without the filter if and only if it denies no stored id |
| Handlers.FreshFilterIff | url_shortener_redis_mysql_release/apps/url_shortener/src/main_cache_aside.cpp:45-110 | A fresh filter over a store with links is transparent if and only if there are none, up to the empty id |
| Handlers.LinksArePermanent | url_shortener_redis_mysql_release/apps/url_shortener/src/RouterSetup.cpp:17-53 | A proper post that draws a free id is answered with the first such id, which redirects with 301 to its url after any later events, and the ids stored are as many as shorten_ok |
| Handlers.ShortenSucceedsIff | url_shortener_redis_mysql_release/apps/url_shortener/src/RouterSetup.cpp:17-36 | An id comes back if and only if the body reads, its url is valid and some drawn id is free |
| Handlers.ShortenSucceeds | url_shortener_redis_mysql_release/apps/url_shortener/src/RouterSetup.cpp:24-31 | Then the first free id gets the url, in store and filter, each id before it counts a conflict, and the answer is 200 with that id |
| Handlers.ShortenFails | url_shortener_redis_mysql_release/apps/url_shortener/src/RouterSetup.cpp:19-35 | Otherwise the answer is 400, counted, or 500 after one conflict for every id, and nothing is stored |
| Handlers.RedirectLaw | url_shortener_redis_mysql_release/apps/url_shortener/src/RouterSetup.cpp:37-53 | 400 without an id, 404 for an id the filter denies or that is not stored, else 301 to its url, with the counters that move |
| ShortenBodies.BodyRoundTripIff | url_shortener_redis_mysql_release/apps/url_shortener/src/RouterSetup.cpp:8-15 | A url, with or without a ttl, posted as a JSON document in either order with any blanks, comes through the hand-written reader if and only if no character of the url has to be escaped in JSON: no quote, no backslash, no control character |
| ShortenBodies.UrlReadIff | url_shortener_redis_mysql_release/apps/url_shortener/src/RouterSetup.cpp:8-11 | In any body, the url read is the text between the first two quotes behind the first colon behind the first "url", and without these nothing is read |
| ShortenBodies.ValidUrlIff | url_shortener_redis_mysql_release/apps/url_shortener/include/app/UrlValidator.h:7-11 | A url is valid if and only if it is http:// or https://, in any case, and then at least one byte, none a blank |
| ShortenBodies.ValidUrlChanges | url_shortener_redis_mysql_release/apps/url_shortener/src/RouterSetup.cpp:18-22 | The validator accepts urls that the reader has changed |
| Handlers.Shortener.Shorten | url_shortener_redis_mysql_release/apps/url_shortener/src/RouterSetup.cpp:17-36 | Response, store, filter and counters after a post, conflicts and exhausted tries included |
| Handlers.Shortener.Insert | url_shortener_redis_mysql_release/apps/url_shortener/src/RouterSetup.cpp:24-34 | The retry loop takes the first free id and counts each conflict |
| Handlers.Shortener.Redirect | url_shortener_redis_mysql_release/apps/url_shortener/src/RouterSetup.cpp:37-53 | Response and counters of a redirect: denied, missing and found |
| ShortenBodies.ParseJson | url_shortener_redis_mysql_release/apps/url_shortener/src/RouterSetup.cpp:8-15 | The index-moving reader computes url and ttl as the round trip needs them |
| BloomFilters.IndicesAre | url_shortener_redis_mysql_release/apps/url_shortener/include/app/Bloom.h:10-13 | A bit is set if and only if it is one of the three bits of an added string |
| BloomFilters.PassesIff | url_shortener_redis_mysql_release/apps/url_shortener/include/app/Bloom.h:11-13 | A string passes if and only if each of its three bits is one of the three bits of some added string |
| BloomFilters.HashesOfEmpty | url_shortener_redis_mysql_release/apps/url_shortener/include/app/Bloom.h:15-18 | The three hashes of the empty string, in numbers |
| BloomFilters.NeverDenied | url_shortener_redis_mysql_release/apps/url_shortener/include/app/Bloom.h:10-13 | No added string is ever denied |
| BloomFilters.SetOneBit | url_shortener_redis_mysql_release/apps/url_shortener/include/app/Bloom.h:19-20 | Setting a bit of a word sets that bit and no other |
| BloomFilters.Bloom.Add | url_shortener_redis_mysql_release/apps/url_shortener/include/app/Bloom.h:10-10 | The word array holds exactly the bits of the strings added so far, every access in bounds |
| BloomFilters.Bloom.MightContain | url_shortener_redis_mysql_release/apps/url_shortener/include/app/Bloom.h:11-13 | Answers from the words what the set of added strings says |
| MemoryStores.MemoryStore.SetNX | url_shortener_redis_mysql_release/apps/url_shortener/include/app/MemoryStore.h:14-18 | Writes only a new key; the shards together are one map |
| MemoryStores.MemoryStore.Get | url_shortener_redis_mysql_release/apps/url_shortener/include/app/MemoryStore.h:10-13 | Reads the one map through the shard of the key's first byte, an empty key included |
| MemoryStores.KVStore.Set | url_shortener_redis_mysql_release/apps/url_shortener/include/app/KVStore.h:18-20 | Changes one key of one shard |

## Left out

- Sockets, event loops, TLS, logging, sessions, CORS, blacklist, router regexes, metrics text and trace ids: foreign calls and plumbing.
- `onRequest` and what follows a dispatch: the response bytes, and closing after `Connection: close`.
- Events after the first rejected one: the connection is being shut down, and `setMethod` asserts a fresh request there.
- `isspace` is the C locale's on bytes; bytes are `char`s, and no byte above 127 counts as a blank.
- The `uint64_t` of byte counts and lengths: Content-Length wraps as in the code; `usedBytes_` is unbounded but shown never to underflow or to exceed twice the capacity.
- The reader-writer lock of the LRU store and the mutex of the limiter: each operation is one step.
- `CacheAdapter`, which passes an empty request to `after`: the middleware is driven directly with the request on both sides.
- Floating-point rounding in the limiter: tokens are real numbers.
- The Redis and MySQL protocols: MySQL is an exact-key map of rows, and a failed INSERT inserts nothing; Redis is a map with deadlines that may lose entries and writes. One clock serves both.
- CacheAside.RunAgrees: covers get and setNX only, because set and del rewrite rows; what a key serves after them is the subject of `CacheAside.ServesOnlyIff`.
- CacheAside.RunIsTimely: claims no bound for a row without a ttl.
- CacheAside.RedisStore.Set: for a ttl of 0 the command carries an empty option and a 0, and what becomes of it is decided by libraries that are not part of this model: the write is lost or leaves an entry without a deadline, and every run result covers both.
- The pool's background checker, which never changes the queue, and its destructor.
- The network side of a connection check: whether it succeeds is a parameter, as is the sleeper that `notify_one` picks.
- Handler results over runs are sequential and from an empty store: `Bloom` has no lock and `MemoryStore::setNX` checks and writes under separate locks.
- ShortenBodies.BodyRoundTripIff: is about documents with no member but url and ttl and with no more escapes than JSON demands.
- Handlers with a null `metrics` pointer: the servers always pass one.
- The overflow of the ttl's `int` in `parseJson`, which is undefined: the number is unbounded here. The in-memory store ignores it.
- The randomness of ids: the five drawn ids are a parameter.
- The Redis rate limiter and the Redis filter: one remote command each.
