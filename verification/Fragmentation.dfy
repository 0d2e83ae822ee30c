/** TCP may cut the request stream anywhere: the parser's answer does not depend on the cuts. */
module Fragmentation {
  import opened Text
  import opened HttpRequests
  import opened HttpParsing

  /** One delivery of bytes, with the time it arrived at. */
  datatype Chunk = Chunk(bytes: string, time: int)

  function Concat(chunks: seq<Chunk>): string {
    if chunks == [] then "" else chunks[0].bytes + Concat(chunks[1..])
  }

  function UntimedRequest(r: Request): Request {
    r.(receiveTime := 0)
  }

  function Untimed(c: Context): Context {
    c.(request := UntimedRequest(c.request))
  }

  /** An outcome without the receive time, the one field that depends on when bytes arrive. */
  function UntimedOutcome(o: Outcome): Outcome {
    o.(context := Untimed(o.context))
  }

  /** Call the parser after each chunk for as long as it asks for more; chunks that arrive
      after it has stopped stay unread. */
  function Feed(o: Outcome, chunks: seq<Chunk>): Outcome
    decreases |chunks|
  {
    if chunks == [] then o
    else if !o.Waiting() then o.(rest := o.rest + Concat(chunks))
    else Feed(Parse(o.context, o.rest + chunks[0].bytes, chunks[0].time), chunks[1..])
  }

  lemma {:induction false} RequestLineExtend(c: Context, b: string, more: string, crlf: nat, now: int)
    requires crlf + 2 <= |b|
    ensures var turn := TakeRequestLine(c, b, crlf, now);
            TakeRequestLine(c, b + more, crlf, now) == turn.(outcome := turn.outcome.(rest := turn.outcome.rest + more))
  {
    assert (b + more)[..crlf] == b[..crlf];
    assert (b + more)[crlf + 2..] == b[crlf + 2..] + more;
  }

  lemma {:induction false} HeaderLineExtend(c: Context, b: string, more: string, crlf: nat)
    requires crlf + 2 <= |b|
    ensures var turn := TakeHeaderLine(c, b, crlf);
            TakeHeaderLine(c, b + more, crlf) == turn.(outcome := turn.outcome.(rest := turn.outcome.rest + more))
  {
    assert (b + more)[..crlf] == b[..crlf];
    assert (b + more)[crlf + 2..] == b[crlf + 2..] + more;
  }

  /** A turn that stops to wait has changed nothing; any other turn does the same with more
      bytes behind it. */
  lemma {:induction false} TurnExtend(c: Context, b: string, more: string, now: int)
    requires !c.state.GotAll?
    ensures var turn := OneTurn(c, b, now);
            if !turn.hasMore && turn.outcome.Waiting() then turn.outcome == Outcome(Good, c, b)
            else OneTurn(c, b + more, now) == turn.(outcome := turn.outcome.(rest := turn.outcome.rest + more))
  {
    var crlf := FindCrlf(b);
    if c.state.ExpectBody? {
      var n := c.request.contentLength;
      if n <= |b| {
        assert (b + more)[..n] == b[..n];
        assert (b + more)[n..] == b[n..] + more;
      }
    } else if crlf.Some? {
      FindCrlfExtend(b, more);
      if c.state.ExpectRequestLine? {
        RequestLineExtend(c, b, more, crlf.value, now);
        TakeRequestLineShrinks(c, b, crlf.value, now);
      } else {
        HeaderLineExtend(c, b, more, crlf.value);
      }
    }
  }

  /** Bytes that arrive later: a waiting parser takes up where it stopped, a parser that has
      answered leaves them in the buffer. */
  lemma {:induction false} ParseExtend(c: Context, b: string, more: string, now: int)
    requires !c.state.GotAll?
    ensures var o := Parse(c, b, now);
            Parse(c, b + more, now) ==
            if o.Waiting() then Parse(o.context, o.rest + more, now) else o.(rest := o.rest + more)
    decreases |b|
  {
    TurnExtend(c, b, more, now);
    TurnShrinks(c, b, now);
    var turn := OneTurn(c, b, now);
    if turn.hasMore {
      ParseExtend(turn.outcome.context, turn.outcome.rest, more, now);
    }
  }

  lemma {:induction false} TurnUntimed(c: Context, d: Context, b: string, t: int, u: int)
    requires Untimed(c) == Untimed(d)
    ensures OneTurn(c, b, t).hasMore == OneTurn(d, b, u).hasMore
    ensures UntimedOutcome(OneTurn(c, b, t).outcome) == UntimedOutcome(OneTurn(d, b, u).outcome)
  {
    var crlf := FindCrlf(b);
    if !c.state.GotAll? && !c.state.ExpectBody? && crlf.Some? {
      if c.state.ExpectRequestLine? {
        assert UntimedRequest(c.request) == UntimedRequest(d.request);
        RequestLineUntimed(c.request, d.request, b[..crlf.value]);
      } else {
        HeaderLineUntimed(c, d, b, crlf.value);
      }
    }
  }

  lemma {:induction false} TargetUntimed(r: Request, s: Request, target: string)
    requires UntimedRequest(r) == UntimedRequest(s)
    ensures UntimedRequest(WithTarget(r, target)) == UntimedRequest(WithTarget(s, target))
  {
    assert s == r.(receiveTime := s.receiveTime);
  }

  lemma {:induction false} RequestLineUntimed(r: Request, s: Request, line: string)
    requires UntimedRequest(r) == UntimedRequest(s)
    ensures RequestLine(r, line).0 == RequestLine(s, line).0
    ensures UntimedRequest(RequestLine(r, line).1) == UntimedRequest(RequestLine(s, line).1)
  {
    hide WithTarget, MethodOf, Find;
    assert s == r.(receiveTime := s.receiveTime);
    var space := Find(line, ' ');
    if space < |line| {
      var verb, space2 := MethodOf(line[..space]), Find(line, ' ', space + 1);
      TargetUntimed(r.(verb := verb), s.(verb := verb), line[space + 1..space2]);
    }
  }

  lemma {:induction false} HeaderLineUntimed(c: Context, d: Context, b: string, crlf: nat)
    requires Untimed(c) == Untimed(d) && crlf + 2 <= |b|
    ensures TakeHeaderLine(c, b, crlf).hasMore == TakeHeaderLine(d, b, crlf).hasMore
    ensures UntimedOutcome(TakeHeaderLine(c, b, crlf).outcome) == UntimedOutcome(TakeHeaderLine(d, b, crlf).outcome)
  {
    assert UntimedRequest(c.request) == UntimedRequest(d.request);
    assert d.request == c.request.(receiveTime := d.request.receiveTime);
  }

  /** The clock only reaches the receive time. */
  lemma {:induction false} ParseUntimed(c: Context, d: Context, b: string, t: int, u: int)
    requires Untimed(c) == Untimed(d) && !c.state.GotAll?
    ensures UntimedOutcome(Parse(c, b, t)) == UntimedOutcome(Parse(d, b, u))
    decreases |b|
  {
    TurnUntimed(c, d, b, t, u);
    TurnShrinks(c, b, t);
    var turn, turn' := OneTurn(c, b, t), OneTurn(d, b, u);
    if turn.hasMore {
      ParseUntimed(turn.outcome.context, turn'.outcome.context, turn.outcome.rest, t, u);
    }
  }

  /** Fragmentation is invisible: however the bytes are cut into chunks, verdict, state, request
      (apart from its receive time) and unread bytes are those of one call on the whole stream. */
  lemma {:induction false} FragmentationIsInvisible(c: Context, b: string, chunks: seq<Chunk>, now: int)
    requires !c.state.GotAll? && chunks != []
    ensures UntimedOutcome(Feed(Outcome(Good, c, b), chunks)) == UntimedOutcome(Parse(c, b + Concat(chunks), now))
    decreases |chunks|
  {
    var first, later := chunks[0], chunks[1..];
    var o := Parse(c, b + first.bytes, first.time);
    assert b + Concat(chunks) == b + first.bytes + Concat(later);
    ParseExtend(c, b + first.bytes, Concat(later), first.time);
    ParseUntimed(c, c, b + Concat(chunks), first.time, now);
    if later == [] {
      assert b + Concat(chunks) == b + first.bytes;
    } else if o.Waiting() {
      assert o == Outcome(Good, o.context, o.rest);
      FragmentationIsInvisible(o.context, o.rest, later, first.time);
    }
  }

  /** Two ways to cut the same stream give the same answer. */
  lemma {:induction false} SplitsAgree(c: Context, some: seq<Chunk>, other: seq<Chunk>)
    requires !c.state.GotAll? && some != [] && other != []
    requires Concat(some) == Concat(other)
    ensures UntimedOutcome(Feed(Outcome(Good, c, ""), some)) == UntimedOutcome(Feed(Outcome(Good, c, ""), other))
  {
    FragmentationIsInvisible(c, "", some, 0);
    FragmentationIsInvisible(c, "", other, 0);
  }

  /** The bytes left over are the end of the bytes given. */
  lemma {:induction false} ParseEatsFromTheFront(c: Context, b: string, now: int)
    requires !c.state.GotAll?
    ensures var o := Parse(c, b, now);
            |o.rest| <= |b| && o.rest == b[|b| - |o.rest|..]
    decreases |b|
  {
    var turn := OneTurn(c, b, now);
    TurnShrinks(c, b, now);
    TurnEatsFromTheFront(c, b, now);
    if turn.hasMore {
      ParseEatsFromTheFront(turn.outcome.context, turn.outcome.rest, now);
    }
  }

  lemma {:induction false} TurnEatsFromTheFront(c: Context, b: string, now: int)
    ensures var o := OneTurn(c, b, now).outcome;
            |o.rest| <= |b| && o.rest == b[|b| - |o.rest|..]
  {
  }
}
