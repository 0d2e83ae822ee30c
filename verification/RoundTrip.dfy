/** Printing a well-formed request and parsing it gives the request back, byte for byte; a
    pipelined stream of printed requests is served in order however it is cut. */
module RoundTrip {
  import opened Text
  import opened HttpRequests
  import opened HttpParsing
  import opened Fragmentation
  import opened HttpServing
  import opened KeepAlive

  /** A request as a client writes it (RFC 9112: request line, fields, body). */
  datatype Wire = Wire(verb: Method, path: string, query: Pairs, version: string, headers: Pairs, body: string)

  function VerbText(m: Method): string {
    match m
    case Get => "GET"
    case Post => "POST"
    case Put => "PUT"
    case Delete => "DELETE"
    case Options => "OPTIONS"
    case Head => "HEAD"
    case Invalid => ""
  }

  function PairText(p: (string, string)): string {
    p.0 + "=" + p.1
  }

  function PrintQuery(q: Pairs): string {
    if q == [] then "" else PairText(q[0]) + if |q| == 1 then "" else "&" + PrintQuery(q[1..])
  }

  function PrintTarget(w: Wire): string {
    if w.query == [] then w.path else w.path + "?" + PrintQuery(w.query)
  }

  function PrintRequestLine(w: Wire): string {
    VerbText(w.verb) + " " + PrintTarget(w) + " " + w.version
  }

  function HeaderText(h: (string, string)): string {
    h.0 + ": " + h.1
  }

  function PrintHeaders(hs: Pairs): string {
    if hs == [] then "" else HeaderText(hs[0]) + "\r\n" + PrintHeaders(hs[1..])
  }

  function Print(w: Wire): string {
    PrintRequestLine(w) + "\r\n" + (PrintHeaders(w.headers) + ("\r\n" + w.body))
  }

  predicate TakesBody(m: Method) {
    m.Post? || m.Put?
  }

  predicate Word(s: string) {
    ' ' !in s && NoLineBreak(s)
  }

  predicate QueryPair(p: (string, string)) {
    Word(p.0) && Word(p.1) && '=' !in p.0 && '&' !in p.0 && '&' !in p.1
  }

  predicate HeaderPair(h: (string, string)) {
    NoLineBreak(h.0) && NoLineBreak(h.1) && ':' !in h.0 && Trimmed(h.1)
  }

  /** How many body bytes a Content-Length text asks for: the number that `std::stoi` reads, and a
      negative one wraps around to 64 bits. */
  function BytesAsked(text: string): (r: Option<nat>)
    ensures r.Some? <==> Stoi(text).Some?
    ensures r.Some? ==> r.value == Stoi(text).value + if Stoi(text).value < 0 then 0x1_0000_0000_0000_0000 else 0
  {
    hide LeadingNumber;
    var n := Stoi(text);
    if n.None? then None else Some(n.value % TWO_64)
  }

  /** What a client has to respect: an accepted method and version, no delimiter inside a part,
      and an exact Content-Length where the method has a body. */
  predicate WellFormed(w: Wire) {
    HeadFormed(w) && if TakesBody(w.verb) then ExactLength(w) else w.body == ""
  }

  predicate HeadFormed(w: Wire) {
    LineFormed(w) && forall i :: 0 <= i < |w.headers| ==> HeaderPair(w.headers[i])
  }

  predicate ExactLength(w: Wire) {
    BytesAsked(Lookup(AddAll(map[], w.headers), "Content-Length")) == Some(|w.body|)
  }

  predicate LineFormed(w: Wire) {
    && !w.verb.Invalid? && !w.verb.Head?
    && (w.version == "HTTP/1.1" || w.version == "HTTP/1.0")
    && Word(w.path) && '?' !in w.path
    && (forall i :: 0 <= i < |w.query| ==> QueryPair(w.query[i]))
  }

  /** A context's request before its first line: nothing but a body left over from before. */
  predicate Unused(r: Request) {
    r == AfterReset(r)
  }

  /** The request that `w` means, read at `now` into the request object `r`. */
  function Meaning(w: Wire, r: Request, now: int): Request {
    Request(w.verb, w.version, w.path, map[], AddAll(map[], w.query), now, AddAll(map[], w.headers),
            if w.body == "" then r.content else w.body,
            if TakesBody(w.verb) then |w.body| else r.contentLength)
  }

  // ----- the request line

  lemma {:induction false} VerbRoundTrip(m: Method)
    requires !m.Invalid? && !m.Head?
    ensures MethodOf(VerbText(m)) == m && ' ' !in VerbText(m) && NoLineBreak(VerbText(m))
  {
  }

  lemma {:induction false} AddPairRoundTrip(m: map<string, string>, p: (string, string))
    requires '=' !in p.0
    ensures AddPair(m, PairText(p)) == m[p.0 := p.1]
  {
    var s := PairText(p);
    PieceEnds("", p.0, "=" + p.1, '=');
    assert s == "" + (p.0 + ("=" + p.1));
    assert s[..|p.0|] == p.0 && s[|p.0| + 1..] == p.1;
  }

  lemma {:induction false} PairIsPiece(p: (string, string))
    requires QueryPair(p)
    ensures '&' !in PairText(p) && Word(PairText(p))
  {
  }

  /** One printed pair, wherever it stands in the query. */
  lemma {:induction false} QueryPiece(
      m: map<string, string>, before: string, p: (string, string), after: string, s: string)
    requires '=' !in p.0 && '&' !in PairText(p) && (after == "" || after[0] == '&')
    requires s == before + (PairText(p) + after)
    ensures AddQuery(m, s, |before|) ==
            if after == "" then m[p.0 := p.1] else AddQuery(m[p.0 := p.1], s, |before| + |PairText(p)| + 1)
  {
    var pair := PairText(p);
    PieceEnds(before, pair, after, '&');
    AddPairRoundTrip(m, p);
    if after == "" {
      assert s[|before|..] == pair;
    }
  }

  lemma {:induction false} QueryRoundTrip(m: map<string, string>, before: string, q: Pairs)
    requires q != [] && forall i :: 0 <= i < |q| ==> QueryPair(q[i])
    ensures AddQuery(m, before + PrintQuery(q), |before|) == AddAll(m, q)
    decreases |q|
  {
    hide AddQuery;
    var pair, s := PairText(q[0]), before + PrintQuery(q);
    PairIsPiece(q[0]);
    if |q| == 1 {
      assert PrintQuery(q) == pair + "";
      QueryPiece(m, before, q[0], "", s);
      assert q[1..] == [];
    } else {
      var after := "&" + PrintQuery(q[1..]);
      assert after[0] == '&';
      QueryPiece(m, before, q[0], after, s);
      var before', m' := before + pair + "&", m[q[0].0 := q[0].1];
      assert s == before' + PrintQuery(q[1..]);
      QueryRoundTrip(m', before', q[1..]);
    }
  }

  lemma {:induction false} PrintQueryIsWord(q: Pairs)
    requires forall i :: 0 <= i < |q| ==> QueryPair(q[i])
    ensures Word(PrintQuery(q))
    decreases |q|
  {
    if q != [] {
      PrintQueryIsWord(q[1..]);
      PairIsPiece(q[0]);
    }
  }

  lemma {:induction false} TargetRoundTrip(w: Wire, r: Request)
    requires LineFormed(w) && r.queryParameters == map[]
    ensures WithTarget(r, PrintTarget(w)) == r.(path := w.path, queryParameters := AddAll(map[], w.query))
    ensures Word(PrintTarget(w))
  {
    hide AddQuery, PrintQuery, QueryPair;
    PrintQueryIsWord(w.query);
    if w.query == [] {
      PathOnly(r, w.path);
    } else {
      QueryRoundTrip(map[], "", w.query);
      assert "" + PrintQuery(w.query) == PrintQuery(w.query);
      PathAndQuery(r, w.path, PrintQuery(w.query));
    }
  }

  /** The four laws of a query string: a piece up to the next ampersand adds the pair cut at its first
      equals sign, and a piece without one adds nothing; so does the last piece. */
  lemma {:induction false} QueryLaws(m: map<string, string>, key: string, value: string, piece: string, rest: string)
    requires '=' !in key && '&' !in key && '&' !in value && '=' !in piece && '&' !in piece
    ensures AddQuery(m, key + "=" + value) == m[key := value] && AddQuery(m, piece) == m
    ensures AddQuery(m, key + "=" + value + "&" + rest) == AddQuery(m[key := value], rest)
    ensures AddQuery(m, piece + "&" + rest) == AddQuery(m, rest)
  {
    hide AddQuery;
    AddPairRoundTrip(m, (key, value));
    NoPair(m, piece);
    LastPiece(m, key + "=" + value);
    LastPiece(m, piece);
    FirstPiece(m, key + "=" + value, rest);
    FirstPiece(m, piece, rest);
  }

  lemma {:induction false} NoPair(m: map<string, string>, piece: string)
    requires '=' !in piece
    ensures AddPair(m, piece) == m
  {
    FindIs(piece, '=', 0, |piece|);
  }

  lemma {:induction false} LastPiece(m: map<string, string>, piece: string)
    requires '&' !in piece
    ensures AddQuery(m, piece) == AddPair(m, piece)
  {
    FindIs(piece, '&', 0, |piece|);
    assert piece[0..] == piece;
  }

  lemma {:induction false} FirstPiece(m: map<string, string>, piece: string, rest: string)
    requires '&' !in piece
    ensures AddQuery(m, piece + "&" + rest) == AddQuery(AddPair(m, piece), rest)
  {
    var s := piece + "&" + rest;
    assert s == "" + (piece + ("&" + rest));
    PieceEnds("", piece, "&" + rest, '&');
    assert s[0..|piece|] == piece;
    QueryShift(AddPair(m, piece), piece + "&", rest, 0);
  }

  lemma {:induction false} SameSlice(before: string, rest: string, i: nat, j: nat)
    requires i <= j <= |rest|
    ensures (before + rest)[|before| + i..|before| + j] == rest[i..j]
  {
  }

  /** Where in a longer text a query stands does not matter. */
  lemma {:induction false} QueryShift(m: map<string, string>, before: string, rest: string, i: nat)
    requires i <= |rest|
    ensures AddQuery(m, before + rest, |before| + i) == AddQuery(m, rest, i)
    decreases |rest| - i
  {
    hide AddPair, Find;
    var s, j := before + rest, Find(rest, '&', i);
    FindShift(before, rest, '&', i);
    SameSlice(before, rest, i, j);
    assert s[|before| + i..|s|] == s[|before| + i..] && rest[i..|rest|] == rest[i..];
    if j < |rest| {
      QueryShift(AddPair(m, rest[i..j]), before, rest, j + 1);
    }
  }

  lemma {:induction false} FindShift(before: string, rest: string, c: char, i: nat)
    requires i <= |rest|
    ensures Find(before + rest, c, |before| + i) == |before| + Find(rest, c, i)
  {
    var s, j := before + rest, Find(rest, c, i);
    assert forall k :: 0 <= k < |rest| ==> s[|before| + k] == rest[k];
    FindIs(s, c, |before| + i, |before| + j);
  }

  lemma {:induction false} PathOnly(r: Request, path: string)
    requires '?' !in path
    ensures WithTarget(r, path) == r.(path := path)
  {
    PieceEnds("", path, "", '?');
    assert path == "" + (path + "");
  }

  lemma {:induction false} PathAndQuery(r: Request, path: string, query: string)
    requires '?' !in path
    ensures WithTarget(r, path + "?" + query) == r.(path := path, queryParameters := AddQuery(r.queryParameters, query))
  {
    hide AddQuery;
    var s := path + "?" + query;
    assert s == "" + (path + ("?" + query));
    PieceEnds("", path, "?" + query, '?');
    assert s[..|path|] == path && s[|path| + 1..] == query;
  }

  lemma {:induction false} RequestLineRoundTrip(w: Wire, r: Request)
    requires LineFormed(w) && r.queryParameters == map[]
    ensures NoLineBreak(PrintRequestLine(w))
    ensures RequestLine(r, PrintRequestLine(w)) ==
            (true, r.(verb := w.verb, path := w.path, queryParameters := AddAll(map[], w.query), version := w.version))
  {
    VerbRoundTrip(w.verb);
    TargetRoundTrip(w, r.(verb := w.verb));
    RequestLineHasNoBreak(VerbText(w.verb), PrintTarget(w), w.version);
    RequestLineOfPieces(r, VerbText(w.verb), PrintTarget(w), w.version);
  }

  lemma {:induction false} RequestLineHasNoBreak(v: string, target: string, version: string)
    requires NoLineBreak(v) && NoLineBreak(target) && (version == "HTTP/1.1" || version == "HTTP/1.0")
    ensures NoLineBreak(v + " " + target + " " + version)
  {
  }

  /** The three parts of a printed request line stand between its two spaces. */
  lemma {:induction false} LinePieces(v: string, target: string, version: string)
    requires ' ' !in v && ' ' !in target
    ensures var line, a, b := v + " " + target + " " + version, |v|, |v| + 1 + |target|;
            && Find(line, ' ') == a && Find(line, ' ', a + 1) == b && b < |line|
            && line[..a] == v && line[a + 1..b] == target && line[b + 1..] == version
  {
    hide Find;
    var line, b := v + " " + target + " " + version, |v| + 1 + |target|;
    assert line == "" + (v + (" " + target + " " + version)) == (v + " ") + (target + (" " + version));
    PieceEnds("", v, " " + target + " " + version, ' ');
    PieceEnds(v + " ", target, " " + version, ' ');
    assert line[b + 1..] == version;
  }

  lemma {:induction false} RequestLineOfPieces(r: Request, v: string, target: string, version: string)
    requires ' ' !in v && ' ' !in target && !MethodOf(v).Invalid?
    requires version == "HTTP/1.1" || version == "HTTP/1.0"
    ensures RequestLine(r, v + " " + target + " " + version) ==
            (true, WithTarget(r.(verb := MethodOf(v)), target).(version := version))
  {
    hide RequestLine, MethodOf, WithTarget;
    LinePieces(v, target, version);
    RequestLineAt(r, v + " " + target + " " + version, |v|, |v| + 1 + |target|);
  }

  lemma {:induction false} RequestLineAt(r: Request, line: string, a: nat, b: nat)
    requires a < b < |line| && a == Find(line, ' ') && b == Find(line, ' ', a + 1)
    requires !MethodOf(line[..a]).Invalid? && (line[b + 1..] == "HTTP/1.1" || line[b + 1..] == "HTTP/1.0")
    ensures RequestLine(r, line) ==
            (true, WithTarget(r.(verb := MethodOf(line[..a])), line[a + 1..b]).(version := line[b + 1..]))
  {
  }

  ghost predicate IsRequestLine(line: string, m: Method, target: string, version: string) {
    && !m.Invalid? && !m.Head? && ' ' !in target
    && (version == "HTTP/1.1" || version == "HTTP/1.0")
    && line == VerbText(m) + " " + target + " " + version
  }

  lemma {:induction false} VerbTextOf(v: string)
    requires !MethodOf(v).Invalid?
    ensures VerbText(MethodOf(v)) == v && !MethodOf(v).Head?
  {
  }

  /** What an accepted line has passed: two spaces found, method and version known. */
  lemma {:induction false} AcceptedLine(r: Request, line: string)
    requires RequestLine(r, line).0
    ensures var a := Find(line, ' ');
            && a < |line| && !MethodOf(line[..a]).Invalid?
            && var b := Find(line, ' ', a + 1);
            b < |line| && (line[b + 1..] == "HTTP/1.1" || line[b + 1..] == "HTTP/1.0")
  {
    hide WithTarget, MethodOf, Find;
  }

  lemma {:induction false} CutAtSpaces(line: string, a: nat, b: nat)
    requires a < b < |line| && line[a] == ' ' && line[b] == ' '
    ensures line == line[..a] + " " + line[a + 1..b] + " " + line[b + 1..]
  {
  }

  lemma {:induction false} AcceptedIsLine(r: Request, line: string)
    requires RequestLine(r, line).0
    ensures exists m, target, version :: IsRequestLine(line, m, target, version)
  {
    hide RequestLine, MethodOf, VerbText, Find;
    AcceptedLine(r, line);
    var a := Find(line, ' ');
    var b := Find(line, ' ', a + 1);
    CutAtSpaces(line, a, b);
    VerbTextOf(line[..a]);
    assert IsRequestLine(line, MethodOf(line[..a]), line[a + 1..b], line[b + 1..]);
  }

  /** The parser accepts exactly the lines made of a known method, a target without spaces and one
      of the two versions, with single spaces between. */
  lemma {:induction false} LineAcceptedIff(r: Request, line: string)
    ensures RequestLine(r, line).0 <==> exists m, target, version :: IsRequestLine(line, m, target, version)
  {
    hide RequestLine, MethodOf, VerbText;
    if RequestLine(r, line).0 {
      AcceptedIsLine(r, line);
    }
    if m, target, version :| IsRequestLine(line, m, target, version) {
      VerbRoundTrip(m);
      RequestLineOfPieces(r, VerbText(m), target, version);
    }
  }

  /** A refused request line stays in the buffer, and the request keeps what was read of it before the
      fault: nothing without a space, the method up to the second, and the target before the version. */
  lemma {:induction false} RefusedLineLaw(c: Context, line: string, rest: string, now: int)
    requires c.state.ExpectRequestLine? && OneLine(line) && !RequestLine(c.request, line).0
    ensures var b, a := line + "\r\n" + rest, Find(line, ' ');
            var r :=
              if a == |line| then c.request
              else
                var r1, end := c.request.(verb := MethodOf(line[..a])), Find(line, ' ', a + 1);
                if r1.verb.Invalid? || end == |line| then r1 else WithTarget(r1, line[a + 1..end]);
            Parse(c, b, now) == Outcome(Bad, c.(request := r), b)
  {
    hide WithTarget, MethodOf, Find;
    var b := line + "\r\n" + rest;
    LineEnds(line, rest);
    assert b[..|line|] == line;
  }

  // ----- the header lines

  lemma {:induction false} HeaderRoundTrip(c: Context, h: (string, string), rest: string)
    requires HeaderPair(h) && c.state.ExpectHeaders?
    ensures OneTurn(c, HeaderText(h) + "\r\n" + rest, 0) ==
            Turn(true, Outcome(Good, c.(request := c.request.(headers := c.request.headers[h.0 := h.1])), rest))
  {
    var line := HeaderText(h);
    var b := line + "\r\n" + rest;
    FindCrlfAfterLine(line, rest);
    assert b[..|line|] == line && b[|line| + 2..] == rest;
    HeaderPieces(c, h.0, h.1);
  }

  lemma {:induction false} HeaderPieces(c: Context, k: string, v: string)
    requires ':' !in k && Trimmed(v)
    ensures Find(k + ": " + v, ':') == |k|
    ensures HeaderLine(c, k + ": " + v, |k|) == c.(request := c.request.(headers := c.request.headers[k := v]))
  {
    var line := k + ": " + v;
    assert line == "" + (k + (": " + v));
    PieceEnds("", k, ": " + v, ':');
    assert line[..|k|] == k;
    assert line[|k| + 1..] == " " + v + "";
    TrimIs(" ", v, "");
  }

  lemma {:induction false} HeadersRoundTrip(c: Context, hs: Pairs, rest: string, now: int)
    requires c.state.ExpectHeaders? && forall i :: 0 <= i < |hs| ==> HeaderPair(hs[i])
    ensures Parse(c, PrintHeaders(hs) + rest, now) ==
            Parse(c.(request := c.request.(headers := AddAll(c.request.headers, hs))), rest, now)
    decreases |hs|
  {
    if hs == [] {
      assert PrintHeaders(hs) + rest == rest;
    } else {
      var later := PrintHeaders(hs[1..]) + rest;
      var c' := c.(request := c.request.(headers := c.request.headers[hs[0].0 := hs[0].1]));
      assert PrintHeaders(hs) + rest == HeaderText(hs[0]) + "\r\n" + later;
      HeaderRoundTrip(c, hs[0], later);
      assert Parse(c, PrintHeaders(hs) + rest, now) == Parse(c', later, now);
      HeadersRoundTrip(c', hs[1..], rest, now);
    }
  }

  /** The parts of a header line that has a colon. */
  ghost predicate FieldLine(line: string, key: string, left: string, value: string, right: string) {
    && line == key + ":" + left + value + right && ':' !in key
    && (forall c :: c in left || c in right ==> c in BLANKS)
    && (value == "" || (value[0] !in BLANKS && value[|value| - 1] !in BLANKS))
  }

  lemma {:induction false} FieldLineRead(
      c: Context, line: string, key: string, left: string, value: string, right: string)
    requires FieldLine(line, key, left, value, right)
    ensures Find(line, ':') == |key| < |line|
    ensures HeaderLine(c, line, |key|) == c.(request := c.request.(headers := c.request.headers[key := value]))
  {
    hide Trim;
    var tail := left + value + right;
    assert line == "" + (key + (":" + tail));
    PieceEnds("", key, ":" + tail, ':');
    assert line[..|key|] == key && line[|key| + 1..] == tail;
    BlanksAre(left);
    BlanksAre(right);
    if value != "" {
      SpacesAre(value[0]);
      SpacesAre(value[|value| - 1]);
    }
    TrimIs(left, value, right);
  }

  lemma {:induction false} FieldLineFound(line: string)
    returns (key: string, left: string, value: string, right: string)
    requires ':' in line
    ensures FieldLine(line, key, left, value, right)
  {
    var colon := Find(line, ':');
    var tail := line[colon + 1..];
    left, value, right := TrimFound(tail);
    key := line[..colon];
    assert line == key + ":" + tail;
    assert key + ":" + (left + value + right) == key + ":" + left + value + right;
  }

  /** The law of a header line: without a colon it is a syntax error, and with one it adds the field
      whose name is the text before the first colon and whose value is the text behind it without
      the blanks at its ends. Every line with a colon has these parts. */
  lemma {:induction false} HeaderLineLaw(c: Context, line: string, rest: string, now: int)
    returns (key: string, left: string, value: string, right: string)
    requires c.state.ExpectHeaders? && line != "" && OneLine(line)
    ensures var o := Parse(c, line + "\r\n" + rest, now);
            if ':' !in line then o == Outcome(Bad, c, rest)
            else
              && FieldLine(line, key, left, value, right)
              && o == Parse(c.(request := c.request.(headers := c.request.headers[key := value])), rest, now)
  {
    hide HeaderLine, FieldLine, Find;
    var b := line + "\r\n" + rest;
    LineEnds(line, rest);
    assert b[..|line|] == line && b[|line| + 2..] == rest;
    key, left, value, right := "", "", "", "";
    if ':' in line {
      key, left, value, right := FieldLineFound(line);
      FieldLineRead(c, line, key, left, value, right);
    }
  }

  // ----- the body

  lemma {:induction false} EmptyLineTurn(c: Context, b: string, now: int)
    requires c.state.ExpectHeaders?
    ensures var (more, verdict, c') := EmptyLine(c);
            OneTurn(c, "\r\n" + b, now) == Turn(more, Outcome(verdict, c', if verdict.Threw? then "\r\n" + b else b))
  {
    FindCrlfAfterLine("", b);
    var s := "\r\n" + b;
    assert "" + "\r\n" + b == s;
    assert s[2..] == b && s[..0] == "";
  }

  lemma {:induction false} BodyRoundTrip(w: Wire, r: Request, rest: string, now: int)
    requires WellFormed(w) && r.verb == w.verb && r.headers == AddAll(map[], w.headers)
    ensures Parse(Context(ExpectHeaders, r), "\r\n" + w.body + rest, now) ==
            Outcome(Good,
                    Context(GotAll, r.(content := if w.body == "" then r.content else w.body,
                                       contentLength := if TakesBody(w.verb) then |w.body| else r.contentLength)),
                    rest)
  {
    var c := Context(ExpectHeaders, r);
    var b := w.body + rest;
    assert "\r\n" + w.body + rest == "\r\n" + b;
    EmptyLineTurn(c, b, now);
    LengthRead(w, c);
    if TakesBody(w.verb) && w.body != "" {
      BodyBytes(EmptyLine(c).2, w.body, rest, now);
    } else {
      assert b == rest;
    }
  }

  /** The law of the empty line: no Content-Length is a syntax error, one that is no `int` throws,
      and any other makes the request complete if and only if as many bytes are there as it asks
      for, which for a negative number is more than any connection delivers. */
  lemma {:induction false} LengthLineLaw(c: Context, b: string, now: int)
    requires c.state.ExpectHeaders? && TakesBody(c.request.verb)
    ensures var text := Lookup(c.request.headers, "Content-Length");
            var o, asked := Parse(c, "\r\n" + b, now), BytesAsked(text);
            if text == "" then o == Outcome(Bad, c, b)
            else if asked.None? then o == Outcome(Threw, c, "\r\n" + b)
            else
              && (o.Complete() <==> |b| >= asked.value)
              && (o.Waiting() <==> |b| < asked.value)
              && (o.Complete() ==>
                    && o.context.request.contentLength == asked.value && o.rest == b[asked.value..]
                    && (asked.value > 0 ==> o.context.request.content == b[..asked.value]))
  {
    hide Stoi, BytesAsked;
    var text := Lookup(c.request.headers, "Content-Length");
    EmptyLineTurn(c, b, now);
    WrapsAround(text);
    var c' := EmptyLine(c).2;
    if text != "" && BytesAsked(text).Some? && BytesAsked(text).value > 0 {
      assert Parse(c, "\r\n" + b, now) == Parse(c', b, now);
    }
  }

  lemma {:induction false} WrapsAround(text: string)
    ensures BytesAsked(text) == if Stoi(text).None? then None else Some(Stoi(text).value % TWO_64)
  {
    hide Stoi;
  }

  /** The failing family on the wire: a client that announces one byte less than none is kept
      waiting, whatever body it sends. */
  lemma {:induction false} NegativeLengthWaits(w: Wire, r: Request, now: int)
    requires HeadFormed(w) && TakesBody(w.verb) && Unused(r) && |w.body| < 0xffff_ffff_ffff_ffff
    ensures var v := w.(headers := w.headers + [("Content-Length", "-1")]);
            Parse(Context(ExpectRequestLine, r), Print(v), now).Waiting()
  {
    hide Print, AddAll, Parse, Stoi, HeaderPair, QueryPair;
    var v := w.(headers := w.headers + [("Content-Length", "-1")]);
    MinusOne();
    MinusOneIsText();
    HeadersPrinted(v, r, "", now);
    assert Print(v) + "" == Print(v) && "\r\n" + v.body + "" == "\r\n" + v.body;
    AddAllSnoc(map[], w.headers, ("Content-Length", "-1"));
    LengthLineLaw(AtHeadersEnd(v, r, now), v.body, now);
  }

  lemma {:induction false} MinusOneIsText()
    ensures HeaderPair(("Content-Length", "-1"))
  {
  }

  lemma {:induction false} OneDigit()
    ensures AllDigits("1") && DigitsValue("1") == 1
  {
    assert "1"[..0] == "";
  }

  lemma {:induction false} MinusOne()
    ensures Stoi("-1") == Some(-1)
  {
    hide DigitsValue;
    var s := "-1";
    assert s[0] == '-' && SkipSpaces(s, 0) == 0;
    OneDigit();
    assert SkipDigits(s, 1) == 2 && s[1..2] == "1";
  }

  lemma {:induction false} EmptyIsNoNumber()
    ensures Stoi("").None?
  {
  }

  lemma {:induction false} LengthRead(w: Wire, c: Context)
    requires WellFormed(w) && c.request.verb == w.verb && c.request.headers == AddAll(map[], w.headers)
    ensures EmptyLine(c) ==
            if !TakesBody(w.verb) then (false, Good, c.(state := GotAll))
            else (w.body != "", Good,
                  Context(if w.body == "" then GotAll else ExpectBody, c.request.(contentLength := |w.body|)))
  {
    hide Stoi, BytesAsked, HeadFormed;
    WrapsAround(Lookup(c.request.headers, "Content-Length"));
    EmptyIsNoNumber();
  }

  lemma {:induction false} BodyBytes(c: Context, body: string, rest: string, now: int)
    requires c.state.ExpectBody? && c.request.contentLength == |body|
    ensures Parse(c, body + rest, now) == Outcome(Good, Context(GotAll, c.request.(content := body)), rest)
  {
    var b := body + rest;
    assert b[..|body|] == body && b[|body|..] == rest;
  }

  /** The parser's context when it has read the printed request line and header lines of `w`. */
  function AtHeadersEnd(w: Wire, r: Request, now: int): Context {
    Context(ExpectHeaders,
      r.(verb := w.verb, path := w.path, queryParameters := AddAll(map[], w.query), version := w.version,
         receiveTime := now, headers := AddAll(map[], w.headers)))
  }

  /** A printed request line and printed header lines are read, whatever comes then. */
  lemma {:induction false} HeadRead(w: Wire, r: Request, later: string, now: int)
    requires HeadFormed(w) && Unused(r)
    ensures var b := PrintRequestLine(w) + "\r\n" + (PrintHeaders(w.headers) + later);
            Parse(Context(ExpectRequestLine, r), b, now) == Parse(AtHeadersEnd(w, r, now), later, now)
  {
    hide PrintRequestLine, PrintHeaders, AddAll, OneTurn, HeaderPair, LineFormed;
    var c, b := Context(ExpectRequestLine, r), PrintHeaders(w.headers) + later;
    var r1 := r.(verb := w.verb, path := w.path, queryParameters := AddAll(map[], w.query), version := w.version,
                 receiveTime := now);
    FirstTurn(w, r, b, now);
    assert Parse(c, PrintRequestLine(w) + "\r\n" + b, now) == Parse(Context(ExpectHeaders, r1), b, now);
    HeadersRoundTrip(Context(ExpectHeaders, r1), w.headers, later, now);
  }

  lemma {:induction false} HeadersPrinted(w: Wire, r: Request, rest: string, now: int)
    requires HeadFormed(w) && Unused(r)
    ensures Parse(Context(ExpectRequestLine, r), Print(w) + rest, now) ==
            Parse(AtHeadersEnd(w, r, now), "\r\n" + w.body + rest, now)
  {
    hide PrintRequestLine, PrintHeaders, Parse, HeadFormed, AtHeadersEnd;
    HeadRead(w, r, "\r\n" + w.body + rest, now);
    assert Print(w) + rest == PrintRequestLine(w) + "\r\n" + (PrintHeaders(w.headers) + ("\r\n" + w.body + rest));
  }

  /** The round trip: parsing a printed request gives its meaning and stops at the next byte. */
  lemma {:induction false} PrintParse(w: Wire, r: Request, rest: string, now: int)
    requires WellFormed(w) && Unused(r)
    ensures Parse(Context(ExpectRequestLine, r), Print(w) + rest, now) ==
            Outcome(Good, Context(GotAll, Meaning(w, r, now)), rest)
  {
    hide Parse, PrintRequestLine, PrintHeaders, AddAll, OneTurn, EmptyLine, Stoi, HeaderPair, LineFormed;
    HeadersPrinted(w, r, rest, now);
    BodyRoundTrip(w, AtHeadersEnd(w, r, now).request, rest, now);
  }

  /** And it does so for no other body: without an exact length, or with a body behind a method
      that has none, something else comes back. */
  lemma {:induction false} PrintParseIff(w: Wire, r: Request, rest: string, now: int)
    requires HeadFormed(w) && Unused(r)
    ensures WellFormed(w) <==>
            (Parse(Context(ExpectRequestLine, r), Print(w) + rest, now) ==
             Outcome(Good, Context(GotAll, Meaning(w, r, now)), rest))
  {
    hide Print, Parse, AddAll, EmptyLine, Stoi, HeaderPair, LineFormed, BytesAsked;
    if WellFormed(w) {
      PrintParse(w, r, rest, now);
    } else {
      HeadersPrinted(w, r, rest, now);
      var c, b := AtHeadersEnd(w, r, now), w.body + rest;
      assert "\r\n" + w.body + rest == "\r\n" + b;
      if TakesBody(w.verb) {
        EmptyIsNoNumber();
        LengthLineLaw(c, b, now);
      } else {
        BodyIsLeft(c, b, now);
      }
    }
  }

  lemma {:induction false} BodyIsLeft(c: Context, b: string, now: int)
    requires c.state.ExpectHeaders? && !TakesBody(c.request.verb)
    ensures Parse(c, "\r\n" + b, now) == Outcome(Good, c.(state := GotAll), b)
  {
    EmptyLineTurn(c, b, now);
  }

  lemma {:induction false} FirstTurn(w: Wire, r: Request, later: string, now: int)
    requires LineFormed(w) && r.queryParameters == map[]
    ensures OneTurn(Context(ExpectRequestLine, r), PrintRequestLine(w) + "\r\n" + later, now) ==
            Turn(true, Outcome(Good, Context(ExpectHeaders,
              r.(verb := w.verb, path := w.path, queryParameters := AddAll(map[], w.query), version := w.version,
                 receiveTime := now)), later))
  {
    hide PrintRequestLine, LineFormed, RequestLine, AddAll;
    var line := PrintRequestLine(w);
    var b := line + "\r\n" + later;
    RequestLineRoundTrip(w, r);
    FindCrlfAfterLine(line, later);
    assert b[..|line|] == line && b[|line| + 2..] == later;
  }

  lemma {:induction false} AddAllSnoc(m: map<string, string>, ps: Pairs, p: (string, string))
    ensures AddAll(m, ps + [p]) == AddAll(m, ps)[p.0 := p.1]
    decreases |ps|
  {
    if ps == [] {
      assert ps + [p] == [p] && [p][1..] == [];
    } else {
      assert (ps + [p])[1..] == ps[1..] + [p];
      AddAllSnoc(m[ps[0].0 := ps[0].1], ps[1..], p);
    }
  }

  /** A client that appends the printed length of its body satisfies the length condition. */
  lemma {:induction false} PrintedLengthIsExact(w: Wire)
    requires HeadFormed(w) && TakesBody(w.verb) && |w.body| <= INT_MAX
    ensures WellFormed(w.(headers := w.headers + [("Content-Length", Decimal(|w.body|))]))
  {
    hide Stoi, AddAll, Decimal, QueryPair;
    AddAllSnoc(map[], w.headers, ("Content-Length", Decimal(|w.body|)));
    StoiDecimal(|w.body|);
    DecimalIsText(|w.body|);
  }

  // ----- pipelined streams

  function PrintAll(ws: seq<Wire>): string {
    if ws == [] then "" else Print(ws[0]) + PrintAll(ws[1..])
  }

  /** The requests that a stream of printed requests means; bodies left over from earlier
      requests are carried along, as the server carries them. */
  function Meanings(ws: seq<Wire>, r: Request): (ms: seq<Request>)
    ensures |ms| == |ws|
  {
    if ws == [] then [] else
      var m := Meaning(ws[0], r, 0);
      [m] + Meanings(ws[1..], AfterReset(m))
  }

  lemma {:induction false} AllRequestsOfPrinted(ws: seq<Wire>, r: Request)
    requires Unused(r) && forall i :: 0 <= i < |ws| ==> WellFormed(ws[i])
    ensures AllRequests(Context(ExpectRequestLine, r), PrintAll(ws)) == Meanings(ws, r)
    ensures LastVerdict(Context(ExpectRequestLine, r), PrintAll(ws)).Good?
    decreases |ws|
  {
    var c := Context(ExpectRequestLine, r);
    if ws == [] {
      assert Parse(c, "", 0) == Outcome(Good, c, "");
    } else {
      var m := Meaning(ws[0], r, 0);
      PrintParse(ws[0], r, PrintAll(ws[1..]), 0);
      AllRequestsOfPrinted(ws[1..], AfterReset(m));
      assert UntimedRequest(m) == m;
    }
  }

  /** End to end: clients that print well-formed requests get them served in order, whatever
      events the bytes arrive in; no event is rejected, and one request at most per event. */
  lemma {:induction false} PrintedRequestsAreServed(ws: seq<Wire>, events: seq<Chunk>)
    requires forall i :: 0 <= i < |ws| ==> WellFormed(ws[i])
    requires Concat(events) == PrintAll(ws)
    ensures var f := Run(OPENED, events);
            && f.rejected == 0
            && Strip(f.dispatched) + Pending(f) == Meanings(ws, EMPTY)
  {
    AllRequestsOfPrinted(ws, EMPTY);
    FreshRunServes(events);
    RunVerdict(OPENED, events);
    assert "" + Concat(events) == Concat(events);
  }

  /** A pipelining client can be left waiting: two requests in one event, one answer. */
  lemma {:induction false} PipelinedRequestWaits(w: Wire, now: int)
    requires WellFormed(w)
    ensures var events := [Chunk(Print(w) + Print(w), now)];
            DispatchCount(events) == 1 && CompleteCount(events) == 2
  {
    var events := [Chunk(Print(w) + Print(w), now)];
    TwicePrinted(w);
    assert Concat(events) == PrintAll([w, w]);
    AllRequestsOfPrinted([w, w], EMPTY);
    assert events == [] + events;
    NothingFromNothing();
    DispatchLaw([], events[0]);
  }

  lemma {:induction false} TwicePrinted(w: Wire)
    ensures PrintAll([w, w]) == Print(w) + Print(w)
  {
    assert [w, w][1..] == [w];
    assert PrintAll([w]) == Print(w) + PrintAll([]);
  }

  // ----- requests that are rejected

  /** A connection whose stream is bad before any request is complete is answered 400, and nothing is
      dispatched, in whatever events the bytes arrive. */
  lemma {:induction false} BadStartIsRejected(events: seq<Chunk>)
    requires events != [] && AllRequests(FRESH, Concat(events)) == []
    requires !LastVerdict(FRESH, Concat(events)).Good?
    ensures Run(OPENED, events).rejected > 0 && Run(OPENED, events).dispatched == []
  {
    hide AllRequests, LastVerdict;
    var n := |events| - 1;
    var front, last := events[..n], events[n];
    assert events == front + [last];
    FreshRunServes(events);
    RunSnoc(OPENED, front, last);
    RejectionLaw(front, last);
  }

  /** A header line without a colon is answered 400. */
  lemma {:induction false} ColonlessLineIsRejected(w: Wire, line: string, rest: string, events: seq<Chunk>)
    requires HeadFormed(w) && line != "" && OneLine(line) && ':' !in line
    requires Concat(events) == PrintRequestLine(w) + "\r\n" + (PrintHeaders(w.headers) + (line + "\r\n" + rest))
    ensures Run(OPENED, events).rejected > 0 && Run(OPENED, events).dispatched == []
  {
    hide PrintRequestLine, PrintHeaders, HeadFormed, Run, OneLine, AtHeadersEnd;
    HeadRead(w, EMPTY, line + "\r\n" + rest, 0);
    AtEnd(w);
    var key, left, value, right := HeaderLineLaw(AtHeadersEnd(w, EMPTY, 0), line, rest, 0);
    assert Parse(FRESH, Concat(events), 0).verdict.Bad?;
    NotEmpty(events);
    BadStartIsRejected(events);
  }

  lemma {:induction false} AtEnd(w: Wire)
    ensures AtHeadersEnd(w, EMPTY, 0).state.ExpectHeaders?
  {
  }

  lemma {:induction false} NotEmpty(events: seq<Chunk>)
    requires Concat(events) != ""
    ensures events != []
  {
  }

  /** So is a first line that is no request line. */
  lemma {:induction false} BadRequestLineIsRejected(line: string, rest: string, events: seq<Chunk>)
    requires OneLine(line) && !exists m, target, version :: IsRequestLine(line, m, target, version)
    requires Concat(events) == line + "\r\n" + rest
    ensures Run(OPENED, events).rejected > 0 && Run(OPENED, events).dispatched == []
  {
    hide Run, OneLine, RequestLine, IsRequestLine;
    var b := Concat(events);
    LineAcceptedIff(EMPTY, line);
    LineEnds(line, rest);
    assert b[..|line|] == line;
    assert Parse(FRESH, b, 0).verdict.Bad?;
    NotEmpty(events);
    BadStartIsRejected(events);
  }
}
