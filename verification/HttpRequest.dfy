/** The request object (HttpRequest.cpp). `Request` is its value; the functions say what
    each mutator computes, and the class updates its fields in place. */
module HttpRequests {
  import opened Text

  datatype Method = Invalid | Get | Post | Head | Put | Delete | Options

  datatype Request = Request(
    verb: Method,
    version: string,
    path: string,
    pathParameters: map<string, string>,
    queryParameters: map<string, string>,
    receiveTime: int,
    headers: map<string, string>,
    content: string,
    contentLength: nat)

  const TWO_64 := 0x1_0000_0000_0000_0000

  /** A default-constructed request. */
  const EMPTY := Request(Invalid, "Unknown", "", map[], map[], 0, map[], "", 0)

  /** What `swap` with a fresh request leaves: everything but the body and its length. */
  function AfterReset(r: Request): Request {
    EMPTY.(content := r.content, contentLength := r.contentLength)
  }

  function Lookup(m: map<string, string>, k: string): string {
    if k in m then m[k] else ""
  }

  function MethodOf(s: string): Method {
    if s == "GET" then Get
    else if s == "POST" then Post
    else if s == "PUT" then Put
    else if s == "DELETE" then Delete
    else if s == "OPTIONS" then Options
    else Invalid
  }

  function AddPair(m: map<string, string>, pair: string): map<string, string> {
    var eq := Find(pair, '=');
    if eq < |pair| then m[pair[..eq] := pair[eq + 1..]] else m
  }

  /** The pieces of `s` between `&`s, from `prev` on, added from left to right; a piece
      without `=` is dropped. */
  function AddQuery(m: map<string, string>, s: string, prev: nat := 0): map<string, string>
    requires prev <= |s|
    decreases |s| - prev
  {
    var pos := Find(s, '&', prev);
    if pos == |s| then AddPair(m, s[prev..]) else AddQuery(AddPair(m, s[prev..pos]), s, pos + 1)
  }

  class HttpRequest {
    var verb: Method
    var version: string
    var path: string
    var pathParameters: map<string, string>
    var queryParameters: map<string, string>
    var receiveTime: int
    var headers: map<string, string>
    var content: string
    var contentLength: nat

    function Value(): Request
      reads this
    {
      Request(verb, version, path, pathParameters, queryParameters, receiveTime, headers, content, contentLength)
    }

    constructor ()
      ensures Value() == EMPTY
    {
      verb, version, path := Invalid, "Unknown", "";
      pathParameters, queryParameters, headers := map[], map[], map[];
      receiveTime, content, contentLength := 0, "", 0;
    }

    method SetMethod(s: string) returns (ok: bool)
      requires verb == Invalid
      modifies this
      ensures Value() == old(Value()).(verb := MethodOf(s))
      ensures ok == (verb != Invalid)
    {
      if s == "GET" {
        verb := Get;
      } else if s == "POST" {
        verb := Post;
      } else if s == "PUT" {
        verb := Put;
      } else if s == "DELETE" {
        verb := Delete;
      } else if s == "OPTIONS" {
        verb := Options;
      } else {
        verb := Invalid;
      }
      ok := verb != Invalid;
    }

    method SetQueryParameters(argument: string)
      modifies this
      ensures Value() == old(Value()).(queryParameters := AddQuery(old(queryParameters), argument))
    {
      var prev := 0;
      var pos := Find(argument, '&', prev);
      while pos < |argument|
        invariant prev <= |argument| && pos == Find(argument, '&', prev)
        invariant AddQuery(queryParameters, argument, prev) == AddQuery(old(queryParameters), argument)
        invariant Value() == old(Value()).(queryParameters := queryParameters)
        decreases |argument| - prev
      {
        AddPairTo(argument[prev..pos]);
        prev := pos + 1;
        pos := Find(argument, '&', prev);
      }
      AddPairTo(argument[prev..]);
    }

    method AddPairTo(pair: string)
      modifies this
      ensures Value() == old(Value()).(queryParameters := AddPair(old(queryParameters), pair))
    {
      var equalPos := Find(pair, '=');
      if equalPos < |pair| {
        queryParameters := queryParameters[pair[..equalPos] := pair[equalPos + 1..]];
      }
    }

    /** `line[..colon]` is the key and what follows the colon is the raw value. */
    method AddHeader(line: string, colon: nat)
      requires colon < |line|
      modifies this
      ensures Value() == old(Value()).(headers := old(headers)[line[..colon] := Trim(line[colon + 1..])])
    {
      var key := line[..colon];
      var c := colon + 1;
      while c < |line| && IsSpace(line[c])
        invariant colon < c <= |line|
        invariant forall i :: colon < i < c ==> IsSpace(line[i])
      {
        c := c + 1;
      }
      var value := line[c..];
      while value != "" && IsSpace(value[|value| - 1])
        invariant c + |value| <= |line| && value == line[c..c + |value|]
        invariant forall i :: c + |value| <= i < |line| ==> IsSpace(line[i])
        decreases |value|
      {
        value := value[..|value| - 1];
      }
      ghost var left, right := line[colon + 1..c], line[c + |value|..];
      assert line[colon + 1..] == left + value + right;
      TrimIs(left, value, right);
      headers := headers[key := value];
    }

    /** The part of `swap` that exchanges the method and the target. */
    method SwapTarget(that: HttpRequest)
      modifies this, that
      ensures var v, w := old(Value()), old(that.Value());
              && Value() == v.(verb := w.verb, path := w.path, pathParameters := w.pathParameters,
                               queryParameters := w.queryParameters)
              && that.Value() == w.(verb := v.verb, path := v.path, pathParameters := v.pathParameters,
                                    queryParameters := v.queryParameters)
    {
      verb, that.verb := that.verb, verb;
      path, that.path := that.path, path;
      pathParameters, that.pathParameters := that.pathParameters, pathParameters;
      queryParameters, that.queryParameters := that.queryParameters, queryParameters;
    }

    method Swap(that: HttpRequest)
      modifies this, that
      ensures var v, w := old(Value()), old(that.Value());
              && Value() == w.(content := v.content, contentLength := v.contentLength)
              && that.Value() == v.(content := w.content, contentLength := w.contentLength)
    {
      SwapTarget(that);
      version, that.version := that.version, version;
      headers, that.headers := that.headers, headers;
      receiveTime, that.receiveTime := that.receiveTime, receiveTime;
    }
  }
}
