/** The body of a `POST /api/shorten`: the hand-written reader (RouterSetup.cpp), and which JSON
    documents come through it. */
module ShortenBodies {
  import opened Text

  // ----- the reader

  /** The value of `"ttl"`: the digits after the colon, or 0. */
  function ReadTtl(body: string): nat {
    var tt := FindText(body, "\"ttl\"");
    if tt.None? then 0
    else
      var colon := Find(body, ':', tt.value);
      if colon == |body| then 0
      else
        var first := SkipSpaces(body, colon + 1);
        DigitsValue(body[first..SkipDigits(body, first)])
  }

  /** `parseJson`: the text between the quotes after `"url":`, and the ttl. */
  function ReadBody(body: string): Option<(string, nat)> {
    var pos := FindText(body, "\"url\"");
    if pos.None? then None
    else
      var colon := Find(body, ':', pos.value);
      if colon == |body| then None
      else
        var open := Find(body, '\"', colon);
        if open == |body| then None
        else
          var close := Find(body, '\"', open + 1);
          if close == |body| then None else Some((body[open + 1..close], ReadTtl(body)))
  }

  method ParseTtl(body: string) returns (ttl: nat)
    ensures ttl == ReadTtl(body)
  {
    ttl := 0;
    var tt := FindText(body, "\"ttl\"");
    if tt.Some? {
      var p2 := Find(body, ':', tt.value);
      if p2 != |body| {
        var k := p2 + 1;
        while k < |body| && IsSpace(body[k])
          invariant p2 < k <= |body| && SkipSpaces(body, k) == SkipSpaces(body, p2 + 1)
        {
          k := k + 1;
        }
        ttl := ReadDigits(body, k);
      }
    }
  }

  method ReadDigits(body: string, first: nat) returns (v: nat)
    requires first <= |body|
    ensures v == DigitsValue(body[first..SkipDigits(body, first)])
  {
    v := 0;
    var k := first;
    while k < |body| && IsDigit(body[k])
      invariant first <= k <= |body| && AllDigits(body[first..k])
      invariant SkipDigits(body, k) == SkipDigits(body, first)
      invariant v == DigitsValue(body[first..k])
    {
      DigitsSnoc(body, first, k);
      v := v * 10 + Digit(body[k]);
      k := k + 1;
    }
  }

  lemma {:induction false} DigitsSnoc(s: string, i: nat, k: nat)
    requires i <= k < |s| && AllDigits(s[i..k]) && IsDigit(s[k])
    ensures AllDigits(s[i..k + 1])
    ensures DigitsValue(s[i..k + 1]) == DigitsValue(s[i..k]) * 10 + Digit(s[k])
  {
    assert s[i..k + 1][..k - i] == s[i..k];
  }

  method ParseJson(body: string) returns (ok: bool, url: string, ttl: nat)
    ensures ReadBody(body) == if ok then Some((url, ttl)) else None
  {
    ok, url, ttl := false, "", 0;
    var pos := FindText(body, "\"url\"");
    if pos.None? {
      return;
    }
    var at := Find(body, ':', pos.value);
    if at == |body| {
      return;
    }
    at := Find(body, '\"', at);
    if at == |body| {
      return;
    }
    var end := Find(body, '\"', at + 1);
    if end == |body| {
      return;
    }
    url := body[at + 1..end];
    ttl := ParseTtl(body);
    ok := true;
  }

  // ----- the documents that clients post

  /** The characters that section 7 of RFC 8259 does not allow as they are inside a string. */
  predicate MustEscape(c: char) {
    c == '\"' || c == '\\' || c < ' '
  }

  function HexDigit(n: nat): char
    requires n < 16
  {
    "0123456789abcdef"[n]
  }

  function JsonChar(c: char): string {
    if c == '\"' || c == '\\' then ['\\', c]
    else if c < ' ' then "\\u00" + [HexDigit(c as int / 16), HexDigit(c as int % 16)]
    else [c]
  }

  /** A url as it stands between the quotes of a JSON document. */
  function Escape(url: string): string {
    if url == "" then "" else JsonChar(url[0]) + Escape(url[1..])
  }

  datatype Shape = UrlFirst | TtlFirst | NoTtl

  /** Which members a document has, in which order, and the blanks around its eight marks. */
  datatype Layout = Layout(shape: Shape, gaps: seq<string>)
  {
    predicate Proper() {
      |gaps| == 8 && forall i :: 0 <= i < 8 ==> Blank(gaps[i])
    }
  }

  const URL := "\"url\""
  const TTL := "\"ttl\""

  /** The member `"url"` with `text` between its quotes, and what follows it. */
  function UrlMember(before: string, after: string, text: string, tail: string): string {
    URL + (before + (":" + (after + ("\"" + (text + ("\"" + tail))))))
  }

  function TtlMember(before: string, after: string, ttl: nat, tail: string): string {
    TTL + (before + (":" + (after + (Decimal(ttl) + tail))))
  }

  /** A document; clients post `PrintBody(y, Escape(url), ttl)`. */
  function PrintBody(y: Layout, text: string, ttl: nat): string
    requires y.Proper()
  {
    var g := y.gaps;
    var open, comma, close := "{" + g[0], g[3] + "," + g[4], g[7] + "}";
    match y.shape
    case UrlFirst => open + UrlMember(g[1], g[2], text, comma + TtlMember(g[5], g[6], ttl, close))
    case TtlFirst => open + TtlMember(g[5], g[6], ttl, comma + UrlMember(g[1], g[2], text, close))
    case NoTtl => open + UrlMember(g[1], g[2], text, close)
  }

  /** The ttl that a document has; a document without one asks for none. */
  function TtlOf(y: Layout, ttl: nat): nat {
    if y.shape.NoTtl? then 0 else ttl
  }

  // ----- where the reader finds a key

  lemma {:induction false} StartsAt(s: string, part: string, t: nat)
    requires t <= |s| && part <= s[t..]
    ensures t + |part| <= |s| && forall i :: 0 <= i < |part| ==> s[t + i] == part[i]
  {
    assert part == s[t..][..|part|];
    forall i | 0 <= i < |part|
      ensures s[t + i] == part[i]
    {
      assert s[t..][..|part|][i] == s[t + i];
    }
  }

  /** The reader may find `key` too early, but the next colon is the one behind the key. */
  predicate ColonIsNext(front: string, key: string, rest: string) {
    forall j :: 0 <= j < |front| && key <= (front + rest)[j..] ==> ':' !in front[j..]
  }

  lemma {:induction false} ColonFound(front: string, key: string, gap: string, rest: string)
    requires ':' !in key && ':' !in gap && ColonIsNext(front, key, key + (gap + (":" + rest)))
    ensures var s := front + (key + (gap + (":" + rest)));
            var f := FindText(s, key);
            f.Some? && Find(s, ':', f.value) == |front| + |key| + |gap|
  {
    var later := key + (gap + (":" + rest));
    var s, c := front + later, |front| + |key| + |gap|;
    assert s[|front|..] == later && key <= later;
    var t := FindText(s, key).value;
    assert later[|key| + |gap|] == ':' && s[c] == later[|key| + |gap|];
    forall i | t <= i < c
      ensures s[i] != ':'
    {
      if i < |front| {
        assert front[t..][i - t] == s[i];
      } else {
        assert s[i] == later[i - |front|] == (key + gap)[i - |front|];
        if i >= |front| + |key| {
          assert s[i] == gap[i - |front| - |key|];
        } else {
          assert s[i] == key[i - |front|];
        }
      }
    }
    FindIs(s, ':', t, c);
  }

  lemma {:induction false} NoQuoteNoKey(front: string, key: string, rest: string)
    requires '\"' !in front && |key| > 0 && key[0] == '\"'
    ensures ColonIsNext(front, key, rest)
  {
    var s := front + rest;
    forall j | 0 <= j < |front|
      ensures !(key <= s[j..])
    {
      assert s[j..][0] == front[j];
    }
  }

  lemma {:induction false} NotAt(s: string, key: string, j: nat)
    requires j + 1 < |s| && |key| > 1 && (s[j] != key[0] || s[j + 1] != key[1])
    ensures !(key <= s[j..])
  {
    if key <= s[j..] {
      StartsAt(s, key, j);
    }
  }

  /** The quotes of a front with one key. */
  lemma {:induction false} TwoQuotes(p: string, key: string, m: string, i: nat)
    requires (key == URL || key == TTL) && '\"' !in p && '\"' !in m && i < |p| + 5 + |m|
    ensures (p + (key + m))[i] == '\"' <==> i == |p| || i == |p| + 4
  {
    var s := p + (key + m);
    if i < |p| {
      assert s[i] == p[i];
    } else if i >= |p| + 5 {
      assert s[i] == m[i - |p| - 5];
    } else {
      assert s[i] == key[i - |p|];
    }
  }

  /** Behind a ttl: no `"url"` yet. */
  lemma {:induction false} NoUrlInTtl(p: string, m: string, rest: string)
    requires '\"' !in p && '\"' !in m && m != "" && m[0] != 'u' && rest != ""
    ensures ColonIsNext(p + (TTL + m), URL, rest)
  {
    var front := p + (TTL + m);
    var s := front + rest;
    assert front[|p| + 1] == TTL[1] && front[|p| + 5] == m[0];
    forall j | 0 <= j < |front|
      ensures !(URL <= s[j..])
    {
      TwoQuotes(p, TTL, m, j);
      NotAt(s, URL, j);
    }
  }

  /** Behind a url: a `"ttl"` there can only be the url itself, and no colon follows it. */
  lemma {:induction false} TtlInUrl(p: string, m: string, text: string, n: string, rest: string)
    requires '\"' !in p && '\"' !in m && '\"' !in text && '\"' !in n && ':' !in n
    requires m != "" && m[0] != 't' && n != "" && n[0] != 't'
    ensures ColonIsNext(p + (URL + (m + ("\"" + (text + ("\"" + n))))), TTL, rest)
  {
    var tail := text + ("\"" + n);
    var head := p + (URL + m);
    var front := p + (URL + (m + ("\"" + tail)));
    var s, x := front + rest, |head|;
    assert front == head + ("\"" + tail);
    forall j | 0 <= j < |front| && TTL <= s[j..]
      ensures ':' !in front[j..]
    {
      TtlIsText(p, m, text, n, rest, j);
      assert front[x..] == "\"" + ("ttl" + ("\"" + n));
    }
  }

  lemma {:induction false} TtlIsText(p: string, m: string, text: string, n: string, rest: string, j: nat)
    requires '\"' !in p && '\"' !in m && '\"' !in text && '\"' !in n
    requires m != "" && m[0] != 't' && n != "" && n[0] != 't'
    requires j < |p + (URL + (m + ("\"" + (text + ("\"" + n)))))|
    requires TTL <= ((p + (URL + (m + ("\"" + (text + ("\"" + n)))))) + rest)[j..]
    ensures j == |p + (URL + m)| && text == "ttl"
  {
    var front := p + (URL + (m + ("\"" + (text + ("\"" + n)))));
    var s := front + rest;
    StartsAt(s, TTL, j);
    assert s[j] == TTL[0] && s[j + 1] == TTL[1] && s[j + 2] == TTL[2] && s[j + 3] == TTL[3] && s[j + 4] == TTL[4];
    var x := |p| + 5 + |m|;
    var y := x + 1 + |text|;
    assert front[x] == '\"' && front[y] == '\"' && front[y + 1] == n[0];
    assert front[|p| + 1] == URL[1] && front[|p| + 5] == m[0];
    assert forall i :: 0 <= i < |text| ==> front[x + 1 + i] == text[i];
    assert forall i :: 0 <= i < |n| ==> front[y + 1 + i] == n[i];
    assert forall i :: 0 <= i < x ==> front[i] == (p + (URL + m))[i];
    if j < x {
      TwoQuotes(p, URL, m, j);
    }
  }

  // ----- what it reads there

  lemma {:induction false} Glue(a: string, b: string, c: string)
    ensures (a + b) + c == a + (b + c)
  {
  }

  lemma {:induction false} QuoteFound(head: string, gap: string, rest: string)
    requires '\"' !in gap
    ensures Find(head + (":" + (gap + ("\"" + rest))), '\"', |head|) == |head| + 1 + |gap|
  {
    var s, c := head + (":" + (gap + ("\"" + rest))), |head|;
    assert forall i :: 0 <= i < |gap| ==> s[c + 1 + i] == gap[i];
    FindIs(s, '\"', c, c + 1 + |gap|);
  }

  lemma {:induction false} ReadAt(s: string, colon: nat, open: nat, close: nat)
    requires FindText(s, URL).Some? && Find(s, ':', FindText(s, URL).value) == colon < |s|
    requires Find(s, '\"', colon) == open < |s| && Find(s, '\"', open + 1) == close < |s|
    ensures ReadBody(s) == Some((s[open + 1..close], ReadTtl(s)))
  {
    hide FindText, Find, ReadTtl;
  }

  lemma {:induction false} QuotesFound(head: string, after: string, text: string, tail: string)
    requires '\"' !in after && '\"' !in text
    ensures var s, open := head + (":" + (after + ("\"" + (text + ("\"" + tail))))), |head| + 1 + |after|;
            && Find(s, '\"', |head|) == open
            && Find(s, '\"', open + 1) == open + 1 + |text| < |s|
            && s[open + 1..open + 1 + |text|] == text
  {
    hide Find, Blank;
    var later := text + ("\"" + tail);
    QuoteFound(head, after, later);
    var quoted := head + (":" + (after + "\""));
    Glue(after, "\"", later);
    Glue(":", after + "\"", later);
    Glue(head, ":" + (after + "\""), later);
    PieceEnds(quoted, text, "\"" + tail, '\"');
  }

  lemma {:induction false} UrlRead(front: string, before: string, after: string, text: string, tail: string)
    requires ':' !in before && '\"' !in after && '\"' !in text
    requires ColonIsNext(front, URL, UrlMember(before, after, text, tail))
    ensures var s := front + UrlMember(before, after, text, tail);
            ReadBody(s) == Some((text, ReadTtl(s)))
  {
    hide FindText, Find, ReadTtl, ReadBody, ColonIsNext, Blank;
    var value := after + ("\"" + (text + ("\"" + tail)));
    ColonFound(front, URL, before, value);
    var head := front + (URL + before);
    Glue(URL, before, ":" + value);
    Glue(front, URL + before, ":" + value);
    QuotesFound(head, after, text, tail);
    var open := |head| + 1 + |after|;
    ReadAt(head + (":" + value), |head|, open, open + 1 + |text|);
  }

  lemma {:induction false} TtlAt(s: string, colon: nat)
    requires FindText(s, TTL).Some? && Find(s, ':', FindText(s, TTL).value) == colon < |s|
    ensures ReadTtl(s) ==
            var first := SkipSpaces(s, colon + 1);
            DigitsValue(s[first..SkipDigits(s, first)])
  {
    hide FindText, Find, SkipSpaces, SkipDigits, DigitsValue;
  }

  lemma {:induction false} TtlRead(front: string, before: string, after: string, ttl: nat, tail: string)
    requires ':' !in before && Blank(after) && tail != "" && !IsDigit(tail[0])
    requires ColonIsNext(front, TTL, TtlMember(before, after, ttl, tail))
    ensures ReadTtl(front + TtlMember(before, after, ttl, tail)) == ttl
  {
    hide FindText, Find, DigitsValue, Decimal, ReadTtl, ColonIsNext, Blank, SkipSpaces, SkipDigits;
    var value := after + (Decimal(ttl) + tail);
    ColonFound(front, TTL, before, value);
    var head := front + (TTL + before);
    Glue(TTL, before, ":" + value);
    Glue(front, TTL + before, ":" + value);
    TtlAt(head + (":" + value), |head|);
    Glue(head, ":", value);
    NumberRead(head + ":", after, Decimal(ttl), tail);
  }

  lemma {:induction false} NumberRead(head: string, gap: string, d: string, tail: string)
    requires Blank(gap) && AllDigits(d) && d != "" && tail != "" && !IsDigit(tail[0])
    ensures var s := head + (gap + (d + tail));
            var first := SkipSpaces(s, |head|);
            s[first..SkipDigits(s, first)] == d
  {
    hide SkipDigits;
    var front, later := head + gap, d + tail;
    Glue(head, gap, later);
    Glue(front, d, tail);
    BlanksSkipped(head, gap, later);
    DigitsEnd(front, d, tail);
  }

  lemma {:induction false} BlanksSkipped(head: string, gap: string, later: string)
    requires Blank(gap) && later != "" && !IsSpace(later[0])
    ensures SkipSpaces(head + gap + later, |head|) == |head + gap|
  {
    var s, n := head + gap + later, |head + gap|;
    assert forall i :: |head| <= i < n ==> s[i] == gap[i - |head|];
    assert s[n] == later[0];
  }

  /** What the reader takes for the url, in any body: the text between the first two quotes behind the
      first colon behind the first `"url"`. Nothing else is looked at. */
  lemma {:induction false} UrlReadIff(body: string, u: string)
    ensures ReadBody(body).Some? && ReadBody(body).value.0 == u <==>
            exists front, gap, more, tail :: UrlStands(body, front, gap, more, u, tail)
  {
    hide ReadBody, UrlStands;
    if ReadBody(body).Some? {
      var front, gap, more, tail := UrlFound(body);
    }
    if front, gap, more, tail :| UrlStands(body, front, gap, more, u, tail) {
      UrlIsRead(body, front, gap, more, u, tail);
    }
  }

  ghost predicate UrlStands(body: string, front: string, gap: string, more: string, u: string, tail: string) {
    && body == front + UrlMember(gap, more, u, tail)
    && ':' !in gap && '\"' !in more && '\"' !in u
    && forall j :: 0 <= j < |front| ==> !(URL <= body[j..])
  }

  lemma {:induction false} UrlIsRead(body: string, front: string, gap: string, more: string, u: string, tail: string)
    requires UrlStands(body, front, gap, more, u, tail)
    ensures ReadBody(body) == Some((u, ReadTtl(body)))
  {
    hide ReadBody, ReadTtl;
    UrlRead(front, gap, more, u, tail);
  }

  lemma {:induction false} PlacesFound(body: string) returns (pos: nat, colon: nat, open: nat, close: nat)
    requires ReadBody(body).Some?
    ensures pos <= colon < open < close < |body| && ReadBody(body).value.0 == body[open + 1..close]
    ensures URL <= body[pos..] && body[colon] == ':' && body[open] == '\"' && body[close] == '\"'
    ensures forall j :: 0 <= j < pos ==> !(URL <= body[j..])
    ensures forall k :: pos <= k < colon ==> body[k] != ':'
    ensures forall k :: colon < k < open || open < k < close ==> body[k] != '\"'
  {
    hide ReadTtl, FindText, Find;
    pos := FindText(body, URL).value;
    colon := Find(body, ':', pos);
    open := Find(body, '\"', colon);
    close := Find(body, '\"', open + 1);
  }

  lemma {:induction false} UrlFound(body: string) returns (front: string, gap: string, more: string, tail: string)
    requires ReadBody(body).Some?
    ensures UrlStands(body, front, gap, more, ReadBody(body).value.0, tail)
  {
    hide ReadBody, UrlMember;
    var pos, colon, open, close := PlacesFound(body);
    KeyHasNoColon(body, pos, colon);
    front, gap, more, tail := body[..pos], body[pos + 5..colon], body[colon + 1..open], body[close + 1..];
    NotInSlice(body, ':', pos + 5, colon);
    NotInSlice(body, '\"', colon + 1, open);
    NotInSlice(body, '\"', open + 1, close);
    MemberParts(body, pos, colon, open, close);
  }

  lemma {:induction false} NotInSlice(s: string, c: char, i: nat, j: nat)
    requires i <= j <= |s| && forall k :: i <= k < j ==> s[k] != c
    ensures c !in s[i..j]
  {
  }

  lemma {:induction false} KeyHasNoColon(body: string, pos: nat, colon: nat)
    requires pos <= colon < |body| && body[colon] == ':' && URL <= body[pos..]
    ensures pos + 5 <= colon && body[pos..pos + 5] == URL
  {
    StartsAt(body, URL, pos);
    assert body[pos + 0] == URL[0] && body[pos + 1] == URL[1] && body[pos + 2] == URL[2];
    assert body[pos + 3] == URL[3] && body[pos + 4] == URL[4];
  }

  lemma {:induction false} MemberParts(s: string, pos: nat, colon: nat, open: nat, close: nat)
    requires pos + 5 <= colon < open < close < |s|
    requires s[pos..pos + 5] == URL && s[colon] == ':' && s[open] == '\"' && s[close] == '\"'
    ensures s == s[..pos] + UrlMember(s[pos + 5..colon], s[colon + 1..open], s[open + 1..close], s[close + 1..])
  {
    assert "\"" + s[close + 1..] == s[close..];
    assert s[open + 1..close] + s[close..] == s[open + 1..];
    assert "\"" + s[open + 1..] == s[open..];
    assert s[colon + 1..open] + s[open..] == s[colon + 1..];
    assert ":" + s[colon + 1..] == s[colon..];
    assert s[pos + 5..colon] + s[colon..] == s[pos + 5..];
    assert URL + s[pos + 5..] == s[pos..];
  }

  /** A document without a ttl, even for the url `ttl`. */
  lemma {:induction false} NoTtlRead(s: string)
    requires ColonIsNext(s, TTL, "")
    ensures ReadTtl(s) == 0
  {
    hide Find;
    var t := FindText(s, TTL);
    assert s + "" == s;
    if t.Some? {
      assert forall i :: t.value <= i < |s| ==> s[i] == s[t.value..][i - t.value];
    }
  }

  // ----- the round trip

  /** A member's text and what follows it can be cut apart. */
  lemma {:induction false} UrlMemberIs(before: string, after: string, text: string, a: string, b: string)
    ensures UrlMember(before, after, text, a + b) ==
            URL + ((before + (":" + after)) + ("\"" + (text + ("\"" + a)))) + b
  {
    var x, y := text + ("\"" + a), "\"" + (text + ("\"" + a));
    Glue("\"", a, b);
    Glue(text, "\"" + a, b);
    Glue("\"", x, b);
    Glue(":", after, y + b);
    Glue(before, ":" + after, y + b);
    Glue(before + (":" + after), y, b);
    Glue(URL, (before + (":" + after)) + y, b);
  }

  lemma {:induction false} TtlMemberIs(before: string, after: string, ttl: nat, a: string, b: string)
    ensures TtlMember(before, after, ttl, a + b) ==
            TTL + (before + (":" + (after + (Decimal(ttl) + a)))) + b
  {
    var d := Decimal(ttl) + a;
    Glue(Decimal(ttl), a, b);
    Glue(after, d, b);
    Glue(":", after + d, b);
    Glue(before, ":" + (after + d), b);
    Glue(TTL, before + (":" + (after + d)), b);
  }

  lemma {:induction false} GapsAreBlank(g: seq<string>)
    requires |g| == 8 && forall i :: 0 <= i < 8 ==> Blank(g[i])
    ensures forall i :: 0 <= i < 8 ==> ':' !in g[i] && '\"' !in g[i]
  {
  }

  lemma {:induction false} UrlFirstRead(g: seq<string>, text: string, ttl: nat)
    requires Layout(UrlFirst, g).Proper() && '\"' !in text
    ensures ReadBody(PrintBody(Layout(UrlFirst, g), text, ttl)) == Some((text, ttl))
  {
    hide ReadBody, ReadTtl, ColonIsNext;
    GapsAreBlank(g);
    var open, comma, close := "{" + g[0], g[3] + "," + g[4], g[7] + "}";
    var member := TtlMember(g[5], g[6], ttl, close);
    NoQuoteNoKey(open, URL, UrlMember(g[1], g[2], text, comma + member));
    UrlRead(open, g[1], g[2], text, comma + member);
    var m := g[1] + (":" + g[2]);
    TtlInUrl(open, m, text, comma, member);
    var cut := URL + (m + ("\"" + (text + ("\"" + comma))));
    UrlMemberIs(g[1], g[2], text, comma, member);
    Glue(open, cut, member);
    TtlRead(open + cut, g[5], g[6], ttl, close);
  }

  lemma {:induction false} TtlFirstRead(g: seq<string>, text: string, ttl: nat)
    requires Layout(TtlFirst, g).Proper() && '\"' !in text
    ensures ReadBody(PrintBody(Layout(TtlFirst, g), text, ttl)) == Some((text, ttl))
  {
    hide ReadBody, ReadTtl, ColonIsNext, Decimal;
    GapsAreBlank(g);
    var open, comma, close := "{" + g[0], g[3] + "," + g[4], g[7] + "}";
    var member := UrlMember(g[1], g[2], text, close);
    NoQuoteNoKey(open, TTL, TtlMember(g[5], g[6], ttl, comma + member));
    TtlRead(open, g[5], g[6], ttl, comma + member);
    var m := g[5] + (":" + (g[6] + (Decimal(ttl) + comma)));
    NoUrlInTtl(open, m, member);
    TtlMemberIs(g[5], g[6], ttl, comma, member);
    Glue(open, TTL + m, member);
    UrlRead(open + (TTL + m), g[1], g[2], text, close);
  }

  lemma {:induction false} NoTtlDocumentRead(g: seq<string>, text: string, ttl: nat)
    requires Layout(NoTtl, g).Proper() && '\"' !in text
    ensures ReadBody(PrintBody(Layout(NoTtl, g), text, ttl)) == Some((text, 0))
  {
    hide ReadBody, ReadTtl, ColonIsNext;
    GapsAreBlank(g);
    var open, close := "{" + g[0], g[7] + "}";
    NoQuoteNoKey(open, URL, UrlMember(g[1], g[2], text, close));
    UrlRead(open, g[1], g[2], text, close);
    var m := g[1] + (":" + g[2]);
    TtlInUrl(open, m, text, close, "");
    var cut := URL + (m + ("\"" + (text + ("\"" + close))));
    UrlMemberIs(g[1], g[2], text, close, "");
    assert close + "" == close && cut + "" == cut;
    NoTtlRead(open + cut);
  }

  lemma {:induction false} NoQuoteIsRead(body: string)
    ensures ReadBody(body).Some? ==> '\"' !in ReadBody(body).value.0
  {
    hide FindText, ReadTtl;
  }

  lemma {:induction false} QuoteStays(url: string)
    ensures '\"' in Escape(url) <==> '\"' in url
    decreases |url|
  {
    if url != "" {
      assert url == [url[0]] + url[1..];
      assert '\"' in JsonChar(url[0]) <==> url[0] == '\"' by {
        assert JsonChar('\"')[1] == '\"';
      }
      QuoteStays(url[1..]);
    }
  }

  lemma {:induction false} EscapeChangesIff(url: string)
    ensures |Escape(url)| >= |url|
    ensures Escape(url) == url <==> forall c :: c in url ==> !MustEscape(c)
    decreases |url|
  {
    if url != "" {
      var later := url[1..];
      assert url == [url[0]] + later;
      EscapeChangesIff(later);
      assert Escape(url)[|JsonChar(url[0])|..] == Escape(later);
      if MustEscape(url[0]) {
        assert |Escape(url)| > |url| && url[0] in url;
      } else {
        assert Escape(url) == [url[0]] + Escape(later);
      }
    }
  }

  /** A posted url comes through the reader, in every layout, if and only if none of its characters
      has to be escaped in JSON: the reader knows no escapes, so a quote cuts the url and a
      backslash comes out twice. */
  lemma {:induction false} BodyRoundTripIff(y: Layout, url: string, ttl: nat)
    requires y.Proper()
    ensures ReadBody(PrintBody(y, Escape(url), ttl)) == Some((url, TtlOf(y, ttl))) <==>
            forall c :: c in url ==> !MustEscape(c)
  {
    hide ReadBody, PrintBody, Escape;
    QuoteStays(url);
    EscapeChangesIff(url);
    if '\"' in url {
      NoQuoteIsRead(PrintBody(y, Escape(url), ttl));
      assert MustEscape('\"');
    } else {
      match y.shape
      case UrlFirst => UrlFirstRead(y.gaps, Escape(url), ttl);
      case TtlFirst => TtlFirstRead(y.gaps, Escape(url), ttl);
      case NoTtl => NoTtlDocumentRead(y.gaps, Escape(url), ttl);
    }
  }

  // ----- the url check

  predicate StartsWithAnyCase(s: string, prefix: string) {
    |prefix| <= |s| && forall i :: 0 <= i < |prefix| ==> Lower(s[i]) == prefix[i]
  }

  /** `^https?://[^\s]+$`, in any case. */
  predicate ValidUrl(u: string) {
    && ((StartsWithAnyCase(u, "http://") && |u| > 7) || (StartsWithAnyCase(u, "https://") && |u| > 8))
    && forall c :: c in u ==> !IsSpace(c)
  }

  /** The urls that are accepted: `http://` or `https://`, in any case, and then at least one byte, none
      of them a blank. */
  lemma {:induction false} ValidUrlIff(u: string)
    ensures ValidUrl(u) <==> exists scheme, rest :: UrlParts(u, scheme, rest)
  {
    hide SameName, IsSpace;
    if ValidUrl(u) {
      var n := if StartsWithAnyCase(u, "http://") && |u| > 7 then 7 else 8;
      LowerScheme(if n == 7 then "http://" else "https://");
      SchemeCut(u, if n == 7 then "http://" else "https://");
      assert u == u[..n] + u[n..];
      forall c | c in u[n..]
        ensures c !in BLANKS
      {
        SpacesAre(c);
      }
      assert UrlParts(u, u[..n], u[n..]);
    }
    if scheme, rest :| UrlParts(u, scheme, rest) {
      var full := if SameName(scheme, "http://") then "http://" else "https://";
      SchemeStands(scheme, rest, full);
      forall c | c in u
        ensures !IsSpace(c)
      {
        SpacesAre(c);
        if c !in rest {
          NoBlankInScheme(scheme, full, c);
        }
      }
    }
  }

  ghost predicate UrlParts(u: string, scheme: string, rest: string) {
    && u == scheme + rest && (SameName(scheme, "http://") || SameName(scheme, "https://"))
    && rest != "" && forall c :: c in rest ==> c !in BLANKS
  }

  lemma {:induction false} SchemeCut(u: string, full: string)
    requires StartsWithAnyCase(u, full) && forall i :: 0 <= i < |full| ==> Lower(full[i]) == full[i]
    ensures SameName(u[..|full|], full)
  {
  }

  lemma {:induction false} SchemeStands(scheme: string, rest: string, full: string)
    requires SameName(scheme, full) && (full == "http://" || full == "https://")
    ensures StartsWithAnyCase(scheme + rest, full) && |scheme| == |full|
  {
    LowerScheme(full);
  }

  lemma {:induction false} LowerScheme(full: string)
    requires full == "http://" || full == "https://"
    ensures forall i :: 0 <= i < |full| ==> Lower(full[i]) == full[i]
    ensures forall i :: 0 <= i < |full| ==> full[i] !in BLANKS
  {
  }

  lemma {:induction false} NoBlankInScheme(scheme: string, full: string, c: char)
    requires SameName(scheme, full) && (full == "http://" || full == "https://") && c in scheme
    ensures c !in BLANKS
  {
    LowerScheme(full);
    var i :| 0 <= i < |scheme| && scheme[i] == c;
    assert Lower(c) == full[i];
    assert c in BLANKS ==> Lower(c) == c;
  }

  lemma {:induction false} AcceptedWithBackslash()
    ensures ValidUrl("http://a\\b")
  {
    var u := "http://a\\b";
    assert StartsWithAnyCase(u, "http://");
  }

  /** The validator does not make up for it: it accepts urls that the reader changes. */
  lemma {:induction false} ValidUrlChanges(y: Layout, ttl: nat)
    requires y.Proper()
    ensures exists u :: ValidUrl(u) && ReadBody(PrintBody(y, Escape(u), ttl)) != Some((u, TtlOf(y, ttl)))
  {
    hide ReadBody, PrintBody, Escape, ValidUrl;
    var u := "http://a\\b";
    AcceptedWithBackslash();
    BodyRoundTripIff(y, u, ttl);
    assert u[8] in u && MustEscape(u[8]);
  }
}
