/** The response object and the parts of it that the cache stores (HttpResponse.h). */
module HttpResponses {
  import opened Text

  datatype Response = Response(
    version: string,
    status: int,
    reason: string,
    closeConnection: bool,
    headers: map<string, string>,
    body: string)

  /** The order of `std::map<std::string, ...>`: lexicographic. */
  predicate Less(a: string, b: string) {
    b != "" && (a == "" || a[0] < b[0] || (a[0] == b[0] && Less(a[1..], b[1..])))
  }

  lemma {:induction false} LessTotal(a: string, b: string)
    ensures a == b || Less(a, b) || Less(b, a)
  {
    if a != "" && b != "" && a[0] == b[0] {
      LessTotal(a[1..], b[1..]);
      assert a == [a[0]] + a[1..] && b == [b[0]] + b[1..];
    }
  }

  lemma {:induction false} LessTransitive(a: string, b: string, c: string)
    requires Less(a, b) && Less(b, c)
    ensures Less(a, c)
  {
    if a != "" && a[0] == b[0] && b[0] == c[0] {
      LessTransitive(a[1..], b[1..], c[1..]);
    }
  }

  /** That order, outright: the texts agree up to a place where the first one ends or has the
      smaller byte. */
  lemma {:induction false} LessIff(a: string, b: string)
    ensures Less(a, b) <==> exists i: nat :: SmallerAt(a, b, i)
    decreases |a|
  {
    if a != "" && b != "" && a[0] == b[0] {
      LessIff(a[1..], b[1..]);
      if i: nat :| SmallerAt(a[1..], b[1..], i) {
        assert a[..i + 1] == [a[0]] + a[1..][..i] && b[..i + 1] == [b[0]] + b[1..][..i];
        assert SmallerAt(a, b, i + 1);
      }
      if i: nat :| SmallerAt(a, b, i) {
        assert a[..i][1..] == a[1..][..i - 1] && b[..i][1..] == b[1..][..i - 1];
        assert SmallerAt(a[1..], b[1..], i - 1);
      }
    } else if b != "" {
      assert SmallerAt(a, b, 0) <==> Less(a, b);
      if i: nat :| SmallerAt(a, b, i) {
        SameStart(a, b, i);
      }
    }
  }

  lemma {:induction false} SameStart(a: string, b: string, i: nat)
    requires SmallerAt(a, b, i)
    ensures i > 0 ==> a[0] == b[0]
  {
    if i > 0 {
      assert a[..i][0] == a[0] && b[..i][0] == b[0];
    }
  }

  ghost predicate SmallerAt(a: string, b: string, i: nat) {
    i <= |a| && i < |b| && a[..i] == b[..i] && (i == |a| || a[i] < b[i])
  }

  ghost predicate Least(k: string, keys: set<string>) {
    k in keys && forall j :: j in keys ==> j == k || Less(k, j)
  }

  lemma {:induction false} LeastExists(keys: set<string>) returns (k: string)
    requires keys != {}
    ensures Least(k, keys)
    decreases |keys|
  {
    var x :| x in keys;
    var others := keys - {x};
    if others == {} {
      k := x;
      assert keys == {x};
    } else {
      var y := LeastExists(others);
      LessTotal(x, y);
      if Less(x, y) {
        k := x;
        forall j | j in others && j != y
          ensures Less(x, j)
        {
          LessTransitive(x, y, j);
        }
      } else {
        k := y;
      }
    }
  }

  lemma {:induction false} LeastUnique(keys: set<string>, j: string, k: string)
    requires Least(j, keys) && Least(k, keys)
    ensures j == k
  {
    if j != k {
      LessTransitive(j, k, j);
      LessIrreflexive(j);
    }
  }

  lemma {:induction false} LessIrreflexive(a: string)
    ensures !Less(a, a)
  {
    if a != "" {
      LessIrreflexive(a[1..]);
    }
  }

  /** The headers as a vector, in the order of their keys. */
  ghost function HeaderList(m: map<string, string>): Pairs
    decreases |m|
  {
    if m == map[] then []
    else
      assert exists k :: Least(k, m.Keys) by {
        var k := LeastExists(m.Keys);
      }
      var k :| Least(k, m.Keys);
      [(k, m[k])] + HeaderList(m - {k})
  }

  lemma {:induction false} HeaderListStarts(m: map<string, string>, k: string)
    requires Least(k, m.Keys)
    ensures HeaderList(m) == [(k, m[k])] + HeaderList(m - {k})
  {
    var hs := HeaderList(m);
    assert exists j :: Least(j, m.Keys) && hs == [(j, m[j])] + HeaderList(m - {j});
    var j :| Least(j, m.Keys) && hs == [(j, m[j])] + HeaderList(m - {j});
    LeastUnique(m.Keys, j, k);
  }

  /** Listing the headers and adding them back one by one changes nothing. */
  lemma {:induction false} HeaderListRoundTrip(base: map<string, string>, m: map<string, string>)
    ensures AddAll(base, HeaderList(m)) == base + m
    decreases |m|
  {
    hide Less, Least, HeaderList, AddAll;
    if m == map[] {
      assert base + m == base;
      EmptyHeaderList(base);
    } else {
      var k := LeastExists(m.Keys);
      assert k in m by {
        LeastIsKey(k, m.Keys);
      }
      HeaderListStarts(m, k);
      AddAllCons(base, (k, m[k]), HeaderList(m - {k}));
      MoveKey(base, m, k);
      HeaderListRoundTrip(base[k := m[k]], m - {k});
    }
  }

  /** The list holds each header once, in the order of the names. */
  lemma {:induction false} HeaderListIsSorted(m: map<string, string>)
    ensures forall p :: p in HeaderList(m) <==> p.0 in m && m[p.0] == p.1
    ensures forall i, j :: 0 <= i < j < |HeaderList(m)| ==> Less(HeaderList(m)[i].0, HeaderList(m)[j].0)
    decreases |m|
  {
    hide Less, HeaderList;
    if m == map[] {
      EmptyHeaderList(map[]);
    } else {
      var k := LeastExists(m.Keys);
      HeaderListStarts(m, k);
      MoveKey(map[], m, k);
      HeaderListIsSorted(m - {k});
      var hs, later := HeaderList(m), HeaderList(m - {k});
      forall j | 0 < j < |hs|
        ensures Less(hs[0].0, hs[j].0)
      {
        assert hs[j] == later[j - 1] && later[j - 1] in later;
      }
      forall i, j | 0 < i < j < |hs|
        ensures Less(hs[i].0, hs[j].0)
      {
        assert hs[i] == later[i - 1] && hs[j] == later[j - 1];
      }
    }
  }

  lemma {:induction false} MoveKey(base: map<string, string>, m: map<string, string>, k: string)
    requires k in m
    ensures base[k := m[k]] + (m - {k}) == base + m
    ensures |m - {k}| < |m|
  {
    assert (m - {k}).Keys == m.Keys - {k};
  }

  lemma {:induction false} LeastIsKey(k: string, keys: set<string>)
    requires Least(k, keys)
    ensures k in keys
  {
  }

  lemma {:induction false} AddAllCons(base: map<string, string>, p: (string, string), tail: Pairs)
    ensures AddAll(base, [p] + tail) == AddAll(base[p.0 := p.1], tail)
  {
    assert ([p] + tail)[1..] == tail;
  }

  lemma {:induction false} EmptyHeaderList(base: map<string, string>)
    ensures HeaderList(map[]) == [] && AddAll(base, []) == base
  {
  }

  // ----- the status line

  /** `%s` stops at the first NUL. */
  function CString(s: string): string {
    s[..Find(s, 0 as char)]
  }

  function IntText(n: int): string {
    if n < 0 then "-" + Decimal(-n) else Decimal(n)
  }

  /** What `snprintf` leaves in a buffer of `size` bytes. */
  function Printed(s: string, size: nat): string
    requires size > 0
  {
    if |s| < size then s else s[..size - 1]
  }

  /** `statusLine`: version and code through a 64-byte buffer, then the reason. */
  function StatusLine(version: string, status: int, reason: string): string {
    Printed(CString(version) + " " + IntText(status) + " ", 64) + reason
  }

  /** How the cache reads a status line back, defaults included. */
  function ReadStatusLine(s: string): (string, int, string) {
    var sp1 := Find(s, ' ');
    if sp1 == |s| then ("HTTP/1.1", 200, "OK")
    else
      var sp2 := Find(s, ' ', sp1 + 1);
      if sp2 == |s| then (s[..sp1], 200, "OK")
      else (s[..sp1], Atoi(s[sp1 + 1..sp2]), s[sp2 + 1..])
  }

  /** The version fits the buffer together with the code, and has no byte that ends it early. The
      second case is a truncated line that the defaults happen to complete. */
  predicate FitsStatusLine(version: string, status: int, reason: string) {
    && ' ' !in version && (0 as char) !in version
    && (|version| + |IntText(status)| + 2 <= 63 || (|version| <= 62 && status == 200 && reason == "OK"))
  }

  lemma {:induction false} WholeLine(version: string, d: string, reason: string)
    requires ' ' !in version && ' ' !in d
    ensures var s := version + " " + d + " " + reason;
            ReadStatusLine(s) == (version, Atoi(d), reason)
  {
    hide Atoi;
    var s := version + " " + d + " " + reason;
    assert s == "" + (version + (" " + d + " " + reason)) == (version + " ") + (d + (" " + reason));
    PieceEnds("", version, " " + d + " " + reason, ' ');
    PieceEnds(version + " ", d, " " + reason, ' ');
    assert s[|version| + 1 + |d| + 1..] == reason;
  }

  lemma {:induction false} CutLine(version: string, cut: string)
    requires ' ' !in version && ' ' !in cut
    ensures ReadStatusLine(version + " " + cut) == (version, 200, "OK")
  {
    hide Atoi;
    var s := version + " " + cut;
    assert s == "" + (version + (" " + cut)) == (version + " ") + (cut + "");
    PieceEnds("", version, " " + cut, ' ');
    PieceEnds(version + " ", cut, "", ' ');
  }

  /** What a line without a space reads as, and one with a single space. */
  lemma {:induction false} DefaultsRead(s: string, version: string, cut: string)
    requires ' ' !in s && ' ' !in version && ' ' !in cut
    ensures ReadStatusLine(s) == ("HTTP/1.1", 200, "OK")
    ensures ReadStatusLine(version + " " + cut) == (version, 200, "OK")
  {
    FindIs(s, ' ', 0, |s|);
    CutLine(version, cut);
  }

  lemma {:induction false} IntTextReads(n: int)
    ensures Atoi(IntText(n)) == n && ' ' !in IntText(n) && (0 as char) !in IntText(n)
  {
    hide LeadingNumber, Decimal, DigitsValue;
    var m := if n < 0 then -n else n;
    DecimalIsText(m);
    assert (0 as char) !in Decimal(m);
    if n < 0 {
      NegativeReads(m);
    } else {
      DigitsAreNumber(Decimal(n));
    }
  }

  lemma {:induction false} NegativeReads(m: nat)
    ensures LeadingNumber("-" + Decimal(m)) == Some(Signed("-", m))
  {
    hide LeadingNumber, Decimal, DigitsValue, SkipDigits;
    var d := Decimal(m);
    var s := "-" + d;
    assert s == "-" + d + "";
    DigitsEnd("-", d, "");
    assert SkipSpaces(s, 0) == 0;
    NumberAt(s, "-", 0, |s|);
  }

  lemma {:induction false} CStringWhole(s: string)
    ensures CString(s) == s <==> (0 as char) !in s
    ensures (0 as char) !in CString(s)
  {
    if (0 as char) !in s {
      FindIs(s, 0 as char, 0, |s|);
    }
  }

  /** The cache's packed status line reads back as it was if and only if the version fits. */
  lemma {:induction false} StatusLineRoundTripIff(version: string, status: int, reason: string)
    ensures ReadStatusLine(StatusLine(version, status, reason)) == (version, status, reason) <==>
            FitsStatusLine(version, status, reason)
  {
    if FitsStatusLine(version, status, reason) {
      FittingLineReadsBack(version, status, reason);
    }
    if ReadStatusLine(StatusLine(version, status, reason)) == (version, status, reason) {
      ReadingBackFits(version, status, reason);
    }
  }

  lemma {:induction false} FittingLineReadsBack(version: string, status: int, reason: string)
    requires FitsStatusLine(version, status, reason)
    ensures ReadStatusLine(StatusLine(version, status, reason)) == (version, status, reason)
  {
    hide Atoi, Decimal, ReadStatusLine, Find;
    CStringWhole(version);
    IntTextReads(status);
    var d := IntText(status);
    var full := version + " " + d + " ";
    if |full| < 64 {
      assert StatusLine(version, status, reason) == full + reason;
      WholeLine(version, d, reason);
    } else {
      var n := 63 - |version| - 1;
      assert full[..63] == version + " " + d[..n];
      assert StatusLine(version, status, reason) == version + " " + (d[..n] + "OK");
      CutLine(version, d[..n] + "OK");
    }
  }

  lemma {:induction false} ReadingBackFits(version: string, status: int, reason: string)
    requires ReadStatusLine(StatusLine(version, status, reason)) == (version, status, reason)
    ensures FitsStatusLine(version, status, reason)
  {
    hide Atoi, Decimal;
    CStringWhole(version);
    IntTextReads(status);
  }

  /** A status line that does not survive: any version of more than 62 bytes. */
  lemma {:induction false} LongVersionIsLost(n: nat, status: int, reason: string)
    requires n > 62
    ensures var version := seq(n, _ => 'x');
            ReadStatusLine(StatusLine(version, status, reason)) != (version, status, reason)
  {
    StatusLineRoundTripIff(seq(n, _ => 'x'), status, reason);
  }

  class HttpResponse {
    var httpVersion: string
    var statusCode: int
    var statusMessage: string
    var closeConnection: bool
    var headers: map<string, string>
    var body: string

    function Value(): Response
      reads this
    {
      Response(httpVersion, statusCode, statusMessage, closeConnection, headers, body)
    }

    constructor (close: bool)
      ensures Value() == Response("", 0, "", close, map[], "")
    {
      httpVersion, statusCode, statusMessage := "", 0, "";
      closeConnection, headers, body := close, map[], "";
    }

    method SetStatusLine(version: string, status: int, message: string)
      modifies this
      ensures Value() == old(Value()).(version := version, status := status, reason := message)
    {
      httpVersion, statusCode, statusMessage := version, status, message;
    }

    method AddHeader(key: string, value: string)
      modifies this
      ensures Value() == old(Value()).(headers := old(headers)[key := value])
    {
      headers := headers[key := value];
    }

    method HeadersVector() returns (v: Pairs)
      ensures v == HeaderList(headers)
    {
      hide HeaderList, Less;
      EmptyHeaderList(map[]);
      v := [];
      var rest := headers;
      while rest != map[]
        invariant v + HeaderList(rest) == HeaderList(headers)
        decreases |rest|
      {
        ghost var least := LeastExists(rest.Keys);
        var k :| k in rest && forall j :: j in rest ==> j == k || Less(k, j);
        assert Least(k, rest.Keys);
        HeaderListStarts(rest, k);
        v := v + [(k, rest[k])];
        rest := rest - {k};
      }
    }
  }
}
