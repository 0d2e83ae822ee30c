/** The incremental request parser (HttpContext.cpp): a four-state machine that eats lines and
    a counted body from a growing buffer. */
module HttpParsing {
  import opened Text
  import opened HttpRequests

  datatype ParseState = ExpectRequestLine | ExpectHeaders | ExpectBody | GotAll

  datatype Context = Context(state: ParseState, request: Request)

  /** What a call of `parseRequest` does: return true, return false, or let `std::stoi` throw. */
  datatype Verdict = Good | Bad | Threw

  /** The verdict, the context and the bytes left in the buffer. */
  datatype Outcome = Outcome(verdict: Verdict, context: Context, rest: string)
  {
    predicate Complete() {
      verdict.Good? && context.state.GotAll?
    }

    /** The call returned true but needs more bytes. */
    predicate Waiting() {
      verdict.Good? && !context.state.GotAll?
    }
  }

  /** One turn of the parsing loop; `hasMore` is the loop's own flag. */
  datatype Turn = Turn(hasMore: bool, outcome: Outcome)

  /** What the parser demands: no finished request, and no method yet before a request line. */
  predicate Ready(c: Context) {
    !c.state.GotAll? && (c.state.ExpectRequestLine? ==> c.request.verb.Invalid?)
  }

  /** The part of the request line between the two spaces: path, `?`, query. */
  function WithTarget(r: Request, target: string): Request {
    var argument := Find(target, '?');
    var r' := r.(path := target[..argument]);
    if argument == |target| then r'
    else r'.(queryParameters := AddQuery(r.queryParameters, target[argument + 1..]))
  }

  /** `processRequestLine`: whether the line is accepted, and the request it leaves. */
  function RequestLine(r: Request, line: string): (bool, Request) {
    var space := Find(line, ' ');
    if space == |line| then (false, r)
    else
      var r1 := r.(verb := MethodOf(line[..space]));
      if r1.verb.Invalid? then (false, r1)
      else
        var space2 := Find(line, ' ', space + 1);
        if space2 == |line| then (false, r1)
        else
          var r2 := WithTarget(r1, line[space + 1..space2]);
          var version := line[space2 + 1..];
          if version == "HTTP/1.1" || version == "HTTP/1.0" then (true, r2.(version := version)) else (false, r2)
  }

  function TakeRequestLine(c: Context, b: string, crlf: nat, now: int): Turn
    requires crlf + 2 <= |b|
  {
    var (ok, r) := RequestLine(c.request, b[..crlf]);
    if ok then Turn(true, Outcome(Good, Context(ExpectHeaders, r.(receiveTime := now)), b[crlf + 2..]))
    else Turn(false, Outcome(Bad, c.(request := r), b))
  }

  /** The end of the headers: the method and Content-Length decide whether a body follows.
      A negative length wraps around to 64 bits, as the conversion to `uint64_t` does.
      The results are the loop's flag, the verdict and the new context. */
  function EmptyLine(c: Context): (r: (bool, Verdict, Context))
    ensures r.0 ==> r.1.Good? && r.2.state.ExpectBody?
    ensures !r.1.Good? ==> r.2 == c
    ensures !r.0 && r.1.Good? ==> r.2.state.GotAll?
  {
    if c.request.verb.Post? || c.request.verb.Put? then
      var text := Lookup(c.request.headers, "Content-Length");
      if text == "" then (false, Bad, c)
      else
        var n := Stoi(text);
        if n.None? then (false, Threw, c)
        else
          var r := c.request.(contentLength := n.value % TWO_64);
          if r.contentLength > 0 then (true, Good, Context(ExpectBody, r)) else (false, Good, Context(GotAll, r))
    else (false, Good, c.(state := GotAll))
  }

  function HeaderLine(c: Context, line: string, colon: nat): Context
    requires colon < |line|
  {
    c.(request := c.request.(headers := c.request.headers[line[..colon] := Trim(line[colon + 1..])]))
  }

  function TakeHeaderLine(c: Context, b: string, crlf: nat): Turn
    requires crlf + 2 <= |b|
  {
    var line := b[..crlf];
    var colon := Find(line, ':');
    if colon < crlf then Turn(true, Outcome(Good, HeaderLine(c, line, colon), b[crlf + 2..]))
    else if crlf == 0 then
      var (more, verdict, c') := EmptyLine(c);
      Turn(more, Outcome(verdict, c', if verdict.Threw? then b else b[2..]))
    else Turn(false, Outcome(Bad, c, b[crlf + 2..]))
  }

  function TakeBody(c: Context, b: string): Turn {
    var n := c.request.contentLength;
    if |b| < n then Turn(false, Outcome(Good, c, b))
    else Turn(false, Outcome(Good, Context(GotAll, c.request.(content := b[..n])), b[n..]))
  }

  /** The body of the parsing loop. */
  function OneTurn(c: Context, b: string, now: int): Turn {
    if c.state.ExpectBody? then TakeBody(c, b)
    else
      var crlf := FindCrlf(b);
      if c.state.GotAll? then Turn(true, Outcome(Good, c, b))
      else if crlf.None? then Turn(false, Outcome(Good, c, b))
      else if c.state.ExpectRequestLine? then TakeRequestLine(c, b, crlf.value, now)
      else TakeHeaderLine(c, b, crlf.value)
  }

  /** A turn that goes on has eaten bytes and left a context the next turn can work on. */
  predicate Progress(b: string, turn: Turn) {
    && turn.hasMore
    && |turn.outcome.rest| < |b|
    && turn.outcome.verdict.Good?
    && (turn.outcome.context.state.ExpectHeaders? || turn.outcome.context.state.ExpectBody?)
  }

  lemma {:induction false} TakeHeaderLineShrinks(c: Context, b: string, crlf: nat)
    requires crlf + 2 <= |b| && c.state.ExpectHeaders?
    ensures var turn := TakeHeaderLine(c, b, crlf);
            turn.hasMore ==> Progress(b, turn)
  {
  }

  lemma {:induction false} TakeRequestLineShrinks(c: Context, b: string, crlf: nat, now: int)
    requires crlf + 2 <= |b|
    ensures var turn := TakeRequestLine(c, b, crlf, now);
            if turn.hasMore then Progress(b, turn) else turn.outcome.verdict.Bad?
  {
  }

  /** The loop goes on forever only when called on a finished request, where a turn changes
      nothing; every other turn either stops the loop or eats bytes. */
  lemma {:induction false} TurnShrinks(c: Context, b: string, now: int)
    ensures var turn := OneTurn(c, b, now);
            if c.state.GotAll? then turn == Turn(true, Outcome(Good, c, b))
            else turn.hasMore ==> Progress(b, turn)
  {
    var crlf := FindCrlf(b);
    if c.state.ExpectHeaders? && crlf.Some? {
      TakeHeaderLineShrinks(c, b, crlf.value);
    } else if c.state.ExpectRequestLine? && crlf.Some? {
      TakeRequestLineShrinks(c, b, crlf.value, now);
    }
  }

  /** `parseRequest`: turns until the loop stops. */
  function Parse(c: Context, b: string, now: int): Outcome
    requires !c.state.GotAll?
    decreases |b|
  {
    TurnShrinks(c, b, now);
    var turn := OneTurn(c, b, now);
    if turn.hasMore then Parse(turn.outcome.context, turn.outcome.rest, now) else turn.outcome
  }

  /** `muduo::net::Buffer`, as the parser uses it. */
  class Buffer {
    var data: string

    constructor ()
      ensures data == ""
    {
      data := "";
    }

    method Append(s: string)
      modifies this
      ensures data == old(data) + s
    {
      data := data + s;
    }

    method Retrieve(n: nat)
      requires n <= |data|
      modifies this
      ensures data == old(data)[n..]
    {
      data := data[n..];
    }
  }

  class HttpContext {
    var state: ParseState
    const request: HttpRequest

    function Value(): Context
      reads this, request
    {
      Context(state, request.Value())
    }

    constructor ()
      ensures Value() == Context(ExpectRequestLine, EMPTY) && fresh(request)
    {
      state := ExpectRequestLine;
      request := new HttpRequest();
    }

    method SetTarget(target: string)
      modifies request
      ensures request.Value() == WithTarget(old(request.Value()), target)
    {
      var argumentStart := Find(target, '?');
      request.path := target[..argumentStart];
      if argumentStart != |target| {
        request.SetQueryParameters(target[argumentStart + 1..]);
      }
    }

    method ProcessRequestLine(line: string) returns (ok: bool)
      requires request.verb == Invalid
      modifies request
      ensures (ok, request.Value()) == RequestLine(old(request.Value()), line)
    {
      ok := false;
      var space := Find(line, ' ');
      if space != |line| {
        ok := request.SetMethod(line[..space]);
        if ok {
          var start := space + 1;
          space := Find(line, ' ', start);
          if space == |line| {
            return false;
          }
          SetTarget(line[start..space]);
          ok := SetVersion(line[space + 1..]);
        }
      }
    }

    /** The last check of the request line: eight bytes, `HTTP/1.`, then `0` or `1`. */
    method SetVersion(version: string) returns (ok: bool)
      modifies request
      ensures ok == (version == "HTTP/1.1" || version == "HTTP/1.0")
      ensures request.Value() ==
              if ok then old(request.Value()).(version := version) else old(request.Value())
    {
      ok := |version| == 8 && version[..7] == "HTTP/1.";
      if ok {
        assert version == "HTTP/1." + [version[7]];
        if version[7] == '1' {
          request.version := "HTTP/1.1";
        } else if version[7] == '0' {
          request.version := "HTTP/1.0";
        } else {
          ok := false;
        }
      }
    }

    method ParseRequest(buf: Buffer, receiveTime: int) returns (verdict: Verdict)
      requires Ready(Value())
      modifies this, request, buf
      ensures Outcome(verdict, Value(), buf.data) == Parse(old(Value()), old(buf.data), receiveTime)
    {
      verdict := Good;
      var hasMore := true;
      while hasMore
        invariant hasMore ==> verdict.Good? && Ready(Value())
        invariant hasMore ==> Parse(Value(), buf.data, receiveTime) == Parse(old(Value()), old(buf.data), receiveTime)
        invariant !hasMore ==>
            Outcome(verdict, Value(), buf.data) == Parse(old(Value()), old(buf.data), receiveTime)
        decreases if hasMore then |buf.data| + 1 else 0
      {
        TurnShrinks(Value(), buf.data, receiveTime);
        hasMore, verdict := Iterate(buf, receiveTime);
      }
    }

    method Iterate(buf: Buffer, receiveTime: int) returns (hasMore: bool, verdict: Verdict)
      requires Ready(Value())
      modifies this, request, buf
      ensures Turn(hasMore, Outcome(verdict, Value(), buf.data)) == OneTurn(old(Value()), old(buf.data), receiveTime)
    {
      if state == ExpectRequestLine {
        var crlf := FindCrlf(buf.data);
        if crlf.None? {
          return false, Good;
        }
        var ok := ProcessRequestLine(buf.data[..crlf.value]);
        if !ok {
          return false, Bad;
        }
        request.receiveTime := receiveTime;
        buf.Retrieve(crlf.value + 2);
        state := ExpectHeaders;
        return true, Good;
      } else if state == ExpectHeaders {
        var crlf := FindCrlf(buf.data);
        if crlf.None? {
          return false, Good;
        }
        hasMore, verdict := ProcessHeaderLine(buf, crlf.value);
      } else if state == ExpectBody {
        if |buf.data| < request.contentLength {
          return false, Good;
        }
        request.content := buf.data[..request.contentLength];
        buf.Retrieve(request.contentLength);
        state := GotAll;
        return false, Good;
      }
    }

    method ProcessHeaderLine(buf: Buffer, crlf: nat) returns (hasMore: bool, verdict: Verdict)
      requires crlf + 2 <= |buf.data|
      modifies this, request, buf
      ensures Turn(hasMore, Outcome(verdict, Value(), buf.data)) ==
              TakeHeaderLine(old(Value()), old(buf.data), crlf)
    {
      var line := buf.data[..crlf];
      var colon := Find(line, ':');
      if colon < crlf {
        AddHeader(line, colon);
        hasMore, verdict := true, Good;
      } else if crlf == 0 {
        hasMore, verdict := ProcessEmptyLine();
      } else {
        hasMore, verdict := false, Bad;
      }
      if verdict != Threw {
        buf.Retrieve(crlf + 2);
      }
    }

    method AddHeader(line: string, colon: nat)
      requires colon < |line|
      modifies request
      ensures Value() == HeaderLine(old(Value()), line, colon)
    {
      request.AddHeader(line, colon);
    }

    method ProcessEmptyLine() returns (hasMore: bool, verdict: Verdict)
      modifies this, request
      ensures (hasMore, verdict, Value()) == EmptyLine(old(Value()))
    {
      hasMore, verdict := false, Good;
      if request.verb == Post || request.verb == Put {
        var contentLength := Lookup(request.headers, "Content-Length");
        if contentLength == "" {
          return false, Bad;
        }
        var n := Stoi(contentLength);
        if n.None? {
          return false, Threw;
        }
        request.contentLength := n.value % TWO_64;
        if request.contentLength > 0 {
          state := ExpectBody;
          hasMore := true;
        } else {
          state := GotAll;
        }
      } else {
        state := GotAll;
      }
    }

    method Reset()
      modifies this, request
      ensures Value() == Context(ExpectRequestLine, AfterReset(old(request.Value())))
    {
      state := ExpectRequestLine;
      var dummyData := new HttpRequest();
      request.Swap(dummyData);
    }
  }
}
