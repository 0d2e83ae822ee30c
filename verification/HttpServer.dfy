/** Whole connections (HttpServer::onMessage): each message event parses at most one request,
    dispatches it and resets the context. */
module HttpServing {
  import opened HttpRequests
  import opened HttpParsing
  import opened Fragmentation

  /** A connection: parser, unread bytes, the requests handed to `onRequest` so far, and how
      many times the server answered 400 and shut the connection down. */
  datatype Session = Session(context: Context, buffer: string, dispatched: seq<Request>, rejected: nat)

  function ResetContext(c: Context): Context {
    Context(ExpectRequestLine, AfterReset(c.request))
  }

  /** One message event. */
  function AfterMessage(s: Session, event: Chunk): Session
    requires !s.context.state.GotAll?
  {
    var o := Parse(s.context, s.buffer + event.bytes, event.time);
    if o.Complete() then Session(ResetContext(o.context), o.rest, s.dispatched + [o.context.request], s.rejected)
    else Session(o.context, o.rest, s.dispatched, if o.verdict.Good? then s.rejected else s.rejected + 1)
  }

  /** Only a good answer finishes a request. */
  lemma {:induction false} ParseNeverLeaks(c: Context, b: string, now: int)
    requires !c.state.GotAll?
    ensures var o := Parse(c, b, now);
            o.context.state.GotAll? ==> o.verdict.Good?
    decreases |b|
  {
    TurnShrinks(c, b, now);
    var turn := OneTurn(c, b, now);
    if turn.hasMore {
      ParseNeverLeaks(turn.outcome.context, turn.outcome.rest, now);
    }
  }

  /** The events of a connection, up to the first one it rejects. */
  function Run(s: Session, events: seq<Chunk>): Session
    requires !s.context.state.GotAll?
    ensures !Run(s, events).context.state.GotAll?
    decreases |events|
  {
    if events == [] || s.rejected > 0 then s
    else
      ParseNeverLeaks(s.context, s.buffer + events[0].bytes, events[0].time);
      Run(AfterMessage(s, events[0]), events[1..])
  }

  /** A call that asks for more leaves a context that the next call accepts. */
  lemma {:induction false} ParseKeepsReady(c: Context, b: string, now: int)
    requires Ready(c)
    ensures var o := Parse(c, b, now);
            o.Waiting() ==> Ready(o.context)
    decreases |b|
  {
    TurnShrinks(c, b, now);
    TurnStops(c, b, now);
    var turn := OneTurn(c, b, now);
    if turn.hasMore {
      ParseKeepsReady(turn.outcome.context, turn.outcome.rest, now);
    }
  }

  lemma {:induction false} TurnStops(c: Context, b: string, now: int)
    requires Ready(c)
    ensures var turn := OneTurn(c, b, now);
            turn.outcome.Waiting() ==> Ready(turn.outcome.context)
  {
  }

  class Connection {
    const context: HttpContext
    const buffer: Buffer
    var dispatched: seq<Request>
    var rejected: nat

    function Value(): Session
      reads this, context, context.request, buffer
    {
      Session(context.Value(), buffer.data, dispatched, rejected)
    }

    constructor ()
      ensures Value() == Session(Context(ExpectRequestLine, EMPTY), "", [], 0)
      ensures fresh(context) && fresh(context.request) && fresh(buffer)
    {
      context := new HttpContext();
      buffer := new Buffer();
      dispatched, rejected := [], 0;
    }

    method OnMessage(event: Chunk)
      requires Ready(context.Value())
      modifies this, context, context.request, buffer
      ensures Value() == AfterMessage(old(Value()), event)
      ensures rejected == old(rejected) ==> Ready(context.Value())
    {
      buffer.Append(event.bytes);
      ParseKeepsReady(context.Value(), buffer.data, event.time);
      ParseNeverLeaks(context.Value(), buffer.data, event.time);
      var verdict := context.ParseRequest(buffer, event.time);
      if verdict != Good {
        rejected := rejected + 1;
      }
      if context.state == GotAll {
        dispatched := dispatched + [context.request.Value()];
        context.Reset();
      }
    }
  }
}
