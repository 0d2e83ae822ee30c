/** `reset` swaps a fresh request in, but `swap` leaves the body behind (HttpRequest.cpp).
    This says exactly which later requests of a connection show an earlier request's body. */
module StaleBody {
  import opened Text
  import opened HttpRequests
  import opened HttpParsing
  import opened Fragmentation
  import opened HttpServing
  import opened KeepAlive
  import opened RoundTrip

  function WithoutBody(r: Request): Request {
    r.(content := "", contentLength := 0)
  }

  /** The request has read a body of its own. */
  predicate ReadBody(r: Request) {
    TakesBody(r.verb) && r.contentLength > 0
  }

  /** A context of a new connection next to one of a connection that still holds the body and the
      length of `left`. */
  predicate Carries(c: Context, d: Context, left: Request) {
    && c.state == d.state
    && WithoutBody(c.request) == WithoutBody(d.request)
    && (c.state.ExpectBody? ==> ReadBody(c.request))
    && (if c.state.ExpectBody? || (c.state.GotAll? && TakesBody(c.request.verb))
        then c.request.contentLength == d.request.contentLength
        else c.request.contentLength == 0 && d.request.contentLength == left.contentLength)
    && if c.state.GotAll? && ReadBody(c.request) then c.request.content == d.request.content
       else c.request.content == "" && d.request.content == left.content
  }

  lemma {:induction false} TargetCarries(r: Request, s: Request, target: string)
    requires WithoutBody(r) == WithoutBody(s)
    ensures var r', s' := WithTarget(r, target), WithTarget(s, target);
            && WithoutBody(r') == WithoutBody(s')
            && r'.content == r.content && r'.contentLength == r.contentLength
            && s'.content == s.content && s'.contentLength == s.contentLength
  {
    assert s == r.(content := s.content, contentLength := s.contentLength);
  }

  lemma {:induction false} RequestLineCarries(r: Request, s: Request, line: string)
    requires WithoutBody(r) == WithoutBody(s)
    ensures RequestLine(r, line).0 == RequestLine(s, line).0
    ensures var r', s' := RequestLine(r, line).1, RequestLine(s, line).1;
            && WithoutBody(r') == WithoutBody(s')
            && r'.content == r.content && r'.contentLength == r.contentLength
            && s'.content == s.content && s'.contentLength == s.contentLength
  {
    hide WithTarget, MethodOf, Find;
    assert s == r.(content := s.content, contentLength := s.contentLength);
    var space := Find(line, ' ');
    if space < |line| {
      var verb, space2 := MethodOf(line[..space]), Find(line, ' ', space + 1);
      TargetCarries(r.(verb := verb), s.(verb := verb), line[space + 1..space2]);
    }
  }

  lemma {:induction false} EmptyLineCarries(c: Context, d: Context, left: Request)
    requires Carries(c, d, left) && c.state.ExpectHeaders?
    ensures EmptyLine(c).0 == EmptyLine(d).0 && EmptyLine(c).1 == EmptyLine(d).1
    ensures Carries(EmptyLine(c).2, EmptyLine(d).2, left)
  {
    hide Stoi;
    assert d.request == c.request.(content := d.request.content, contentLength := d.request.contentLength);
  }

  lemma {:induction false} HeaderLineCarries(c: Context, d: Context, left: Request, line: string, colon: nat)
    requires Carries(c, d, left) && c.state.ExpectHeaders? && colon < |line|
    ensures Carries(HeaderLine(c, line, colon), HeaderLine(d, line, colon), left)
  {
    assert d.request == c.request.(content := d.request.content, contentLength := d.request.contentLength);
  }

  lemma {:induction false} TurnCarries(c: Context, d: Context, left: Request, b: string, now: int)
    requires Carries(c, d, left) && !c.state.GotAll?
    ensures var t, u := OneTurn(c, b, now), OneTurn(d, b, now);
            && t.hasMore == u.hasMore
            && t.outcome.verdict == u.outcome.verdict
            && t.outcome.rest == u.outcome.rest
            && Carries(t.outcome.context, u.outcome.context, left)
  {
    hide RequestLine, HeaderLine, EmptyLine;
    var crlf := FindCrlf(b);
    if c.state.ExpectRequestLine? && crlf.Some? {
      RequestLineCarries(c.request, d.request, b[..crlf.value]);
    } else if c.state.ExpectHeaders? && crlf.Some? {
      var line := b[..crlf.value];
      var colon := Find(line, ':');
      if colon < |line| {
        HeaderLineCarries(c, d, left, line, colon);
      }
      EmptyLineCarries(c, d, left);
    }
  }

  lemma {:induction false} ParseCarries(c: Context, d: Context, left: Request, b: string, now: int)
    requires Carries(c, d, left) && !c.state.GotAll?
    ensures var o, p := Parse(c, b, now), Parse(d, b, now);
            && o.verdict == p.verdict && o.rest == p.rest
            && Carries(o.context, p.context, left)
    decreases |b|
  {
    TurnCarries(c, d, left, b, now);
    TurnShrinks(c, b, now);
    var t, u := OneTurn(c, b, now), OneTurn(d, b, now);
    if t.hasMore {
      ParseCarries(t.outcome.context, u.outcome.context, left, t.outcome.rest, now);
    }
  }

  /** A reset parser agrees with a new one on everything but the body and its length: on the body
      exactly when the request reads one of its own or none was left behind, on the length exactly
      when its method has one or none was left behind. */
  lemma {:induction false} ResetForgetsIff(earlier: Request, b: string, now: int)
    ensures var o, p := Parse(FRESH, b, now), Parse(ResetContext(Context(GotAll, earlier)), b, now);
            && o.verdict == p.verdict && o.rest == p.rest && o.context.state == p.context.state
            && WithoutBody(o.context.request) == WithoutBody(p.context.request)
            && (o.Complete() ==>
                  && (p.context.request.content == o.context.request.content <==>
                      ReadBody(o.context.request) || earlier.content == "")
                  && (p.context.request.contentLength == o.context.request.contentLength <==>
                      TakesBody(o.context.request.verb) || earlier.contentLength == 0))
  {
    ParseCarries(FRESH, ResetContext(Context(GotAll, earlier)), earlier, b, now);
  }

  /** The failing case on the wire: a GET after a POST is dispatched with the POST's body. */
  lemma {:induction false} GetShowsEarlierBody(post: Wire, get: Wire, t: int, u: int)
    requires WellFormed(post) && post.verb.Post? && post.body != ""
    requires WellFormed(get) && get.verb.Get?
    ensures var f := Run(OPENED, [Chunk(Print(post), t), Chunk(Print(get), u)]);
            && |f.dispatched| == 2 && f.dispatched[1].verb.Get?
            && f.dispatched[1].content == post.body && f.dispatched[1].contentLength == |post.body|
  {
    hide Parse, Print, AddAll, LineFormed, HeaderPair, Stoi;
    var e1, e2 := Chunk(Print(post), t), Chunk(Print(get), u);
    var m1 := Meaning(post, EMPTY, t);
    PrintParse(post, EMPTY, "", t);
    assert "" + Print(post) == Print(post) + "";
    PrintParse(get, AfterReset(m1), "", u);
    assert "" + Print(get) == Print(get) + "";
    RunSnoc(OPENED, [e1], e2);
    RunSnoc(OPENED, [], e1);
    assert [] + [e1] == [e1] && [e1] + [e2] == [e1, e2];
  }
}
