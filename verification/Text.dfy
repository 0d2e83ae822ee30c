/** Byte strings and the few library calls on them that the server uses.
    A `char` stands for one byte. */
module Text {

  datatype Option<+T> = None | Some(value: T)

  type Pairs = seq<(string, string)>

  /** The map a list of pairs stands for: later pairs win. */
  function AddAll(m: map<string, string>, ps: Pairs): map<string, string>
    decreases |ps|
  {
    if ps == [] then m else AddAll(m[ps[0].0 := ps[0].1], ps[1..])
  }

  /** `std::find`: the first index of `c` at or after `from`, or the length. */
  function Find(s: string, c: char, from: nat := 0): (i: nat)
    requires from <= |s|
    ensures from <= i <= |s|
    ensures forall j :: from <= j < i ==> s[j] != c
    ensures i < |s| ==> s[i] == c
    decreases |s| - from
  {
    if from == |s| || s[from] == c then from else Find(s, c, from + 1)
  }

  /** The result of `Find` is the only index with its properties. */
  lemma {:induction false} FindIs(s: string, c: char, from: nat, i: nat)
    requires from <= i <= |s|
    requires forall j :: from <= j < i ==> s[j] != c
    requires i < |s| ==> s[i] == c
    ensures Find(s, c, from) == i
  {
  }

  /** Where a piece of text ends that is followed by a delimiter, or by nothing. */
  lemma {:induction false} PieceEnds(before: string, piece: string, after: string, c: char)
    requires c !in piece && (after == "" || after[0] == c)
    ensures var s := before + (piece + after);
            var end := |before| + |piece|;
            && Find(s, c, |before|) == end
            && s[|before|..end] == piece
            && s[end..] == after
  {
    var s := before + (piece + after);
    var end := |before| + |piece|;
    assert forall i :: |before| <= i < end ==> s[i] == piece[i - |before|];
    assert after != "" ==> s[end] == after[0];
    FindIs(s, c, |before|, end);
  }

  /** `std::string::find`: the first place at or after `from` where `part` stands. */
  function FindText(s: string, part: string, from: nat := 0): (r: Option<nat>)
    requires from <= |s|
    ensures r.Some? ==> from <= r.value <= |s| - |part| && part <= s[r.value..]
    ensures forall j :: from <= j < (if r.Some? then r.value else |s| + 1) && j <= |s| ==> !(part <= s[j..])
    decreases |s| - from
  {
    if part <= s[from..] then Some(from)
    else if from == |s| then None
    else FindText(s, part, from + 1)
  }

  predicate CrlfAt(b: string, i: nat) {
    i + 1 < |b| && b[i] == '\r' && b[i + 1] == '\n'
  }

  /** `Buffer::findCRLF`: the first CR LF pair. */
  function FindCrlf(b: string, from: nat := 0): (r: Option<nat>)
    requires from <= |b|
    ensures r.None? ==> forall j :: from <= j ==> !CrlfAt(b, j)
    ensures r.Some? ==> from <= r.value && CrlfAt(b, r.value)
    ensures r.Some? ==> forall j :: from <= j < r.value ==> !CrlfAt(b, j)
    decreases |b| - from
  {
    if from + 1 >= |b| then None
    else if CrlfAt(b, from) then Some(from)
    else FindCrlf(b, from + 1)
  }

  /** More bytes at the end do not move a line end that has been found. */
  lemma {:induction false} FindCrlfExtend(b: string, more: string)
    requires FindCrlf(b).Some?
    ensures FindCrlf(b + more) == FindCrlf(b)
  {
    var i := FindCrlf(b).value;
    assert CrlfAt(b + more, i);
    forall j: nat | j < i
      ensures !CrlfAt(b + more, j)
    {
      assert !CrlfAt(b, j);
    }
  }

  /** A text that a CR LF written behind it ends: there is none inside, also not across the seam. */
  predicate OneLine(line: string) {
    forall i :: 0 <= i < |line| ==> !CrlfAt(line + "\r", i)
  }

  lemma {:induction false} LineEnds(line: string, rest: string)
    requires OneLine(line)
    ensures FindCrlf(line + "\r\n" + rest) == Some(|line|)
  {
    var b := line + "\r\n" + rest;
    assert CrlfAt(b, |line|);
    forall j: nat | j < |line|
      ensures !CrlfAt(b, j)
    {
      assert !CrlfAt(line + "\r", j);
      assert b[j] == (line + "\r")[j] && b[j + 1] == (line + "\r")[j + 1];
    }
  }

  predicate NoLineBreak(s: string) {
    '\r' !in s && '\n' !in s
  }

  /** A line without CR and LF ends exactly where its CR LF was written. */
  lemma {:induction false} FindCrlfAfterLine(line: string, rest: string)
    requires NoLineBreak(line)
    ensures FindCrlf(line + "\r\n" + rest) == Some(|line|)
  {
    var b := line + "\r\n" + rest;
    assert CrlfAt(b, |line|);
    forall j: nat | j < |line|
      ensures !CrlfAt(b, j)
    {
      assert b[j] == line[j];
    }
  }

  /** `isspace` in the C locale. */
  predicate IsSpace(c: char) {
    c == ' ' || c == '\t' || c == '\n' || c == '\r' || c as int == 11 || c as int == 12
  }

  /** `tolower` in the C locale. */
  function Lower(c: char): char {
    if 'A' <= c <= 'Z' then (c as int + 32) as char else c
  }

  /** The same text, in any case. */
  predicate SameName(a: string, b: string) {
    |a| == |b| && forall i :: 0 <= i < |a| ==> Lower(a[i]) == Lower(b[i])
  }

  /** `tolower`, outright. */
  lemma {:induction false} LowerIs(c: char, i: nat)
    requires i < 26
    ensures Lower("ABCDEFGHIJKLMNOPQRSTUVWXYZ"[i]) == "abcdefghijklmnopqrstuvwxyz"[i]
    ensures c !in "ABCDEFGHIJKLMNOPQRSTUVWXYZ" ==> Lower(c) == c
  {
    var upper := "ABCDEFGHIJKLMNOPQRSTUVWXYZ";
    if 'A' <= c <= 'Z' {
      assert upper[c as int - 'A' as int] == c;
    }
  }

  predicate Trimmed(s: string) {
    s == "" || (!IsSpace(s[0]) && !IsSpace(s[|s| - 1]))
  }

  /** The first index from `i` on that does not hold a blank. */
  function SkipSpaces(s: string, i: nat): (j: nat)
    requires i <= |s|
    ensures i <= j <= |s|
    ensures forall k :: i <= k < j ==> IsSpace(s[k])
    ensures j < |s| ==> !IsSpace(s[j])
    decreases |s| - i
  {
    if i < |s| && IsSpace(s[i]) then SkipSpaces(s, i + 1) else i
  }

  /** The end of `s[i..j]` without the blanks at its end. */
  function DropSpaces(s: string, i: nat, j: nat): (k: nat)
    requires i <= j <= |s|
    ensures i <= k <= j
    ensures forall x :: k <= x < j ==> IsSpace(s[x])
    ensures i < k ==> !IsSpace(s[k - 1])
  {
    if i < j && IsSpace(s[j - 1]) then DropSpaces(s, i, j - 1) else j
  }

  function Trim(s: string): (t: string)
    ensures Trimmed(t)
  {
    var i := SkipSpaces(s, 0);
    s[i..DropSpaces(s, i, |s|)]
  }

  predicate Blank(s: string) {
    forall i :: 0 <= i < |s| ==> IsSpace(s[i])
  }

  /** `Trim` removes the blanks at the two ends and nothing else. */
  lemma {:induction false} TrimIs(left: string, s: string, right: string)
    requires Trimmed(s) && Blank(left) && Blank(right)
    ensures Trim(left + s + right) == s
  {
    var u := left + s + right;
    var i := SkipSpaces(u, 0);
    var j := DropSpaces(u, i, |u|);
    assert forall k :: 0 <= k < |left| ==> u[k] == left[k];
    assert forall k :: 0 <= k < |right| ==> u[|left| + |s| + k] == right[k];
    if s != "" {
      assert u[|left|] == s[0] && u[|left| + |s| - 1] == s[|s| - 1];
      assert i == |left| && j == |left| + |s|;
    }
  }

  predicate IsDigit(c: char) {
    '0' <= c <= '9'
  }

  function Digit(c: char): nat
    requires IsDigit(c)
  {
    c as int - '0' as int
  }

  predicate AllDigits(s: string) {
    forall i :: 0 <= i < |s| ==> IsDigit(s[i])
  }

  function DigitsValue(s: string): nat
    requires AllDigits(s)
  {
    if s == "" then 0 else 10 * DigitsValue(s[..|s| - 1]) + Digit(s[|s| - 1])
  }

  /** The first index from `i` on that does not hold a digit. */
  function SkipDigits(s: string, i: nat): (j: nat)
    requires i <= |s|
    ensures i <= j <= |s|
    ensures forall k :: i <= k < j ==> IsDigit(s[k])
    ensures j < |s| ==> !IsDigit(s[j])
    decreases |s| - i
  {
    if i < |s| && IsDigit(s[i]) then SkipDigits(s, i + 1) else i
  }

  /** `std::to_string` of a non-negative number. */
  function Decimal(n: nat): (s: string)
    ensures |s| > 0 && AllDigits(s)
    ensures DigitsValue(s) == n
  {
    if n < 10 then [('0' as int + n) as char]
    else
      var s := Decimal(n / 10) + [('0' as int + n % 10) as char];
      assert s[..|s| - 1] == Decimal(n / 10);
      s
  }

  const INT_MAX := 0x7fff_ffff
  const INT_MIN := -0x8000_0000

  /** The number at the start of `s` as `strtol` reads it: blanks, a sign, digits. */
  function LeadingNumber(s: string): (r: Option<int>)
  {
    var i := SkipSpaces(s, 0);
    var signed := i < |s| && (s[i] == '-' || s[i] == '+');
    var first := if signed then i + 1 else i;
    var end := SkipDigits(s, first);
    if first == end then None
    else
      var v: int := DigitsValue(s[first..end]);
      Some(if s[i] == '-' then -v else v)
  }

  /** `std::stoi`: `None` where it throws. */
  function Stoi(s: string): (r: Option<int>) {
    var v := LeadingNumber(s);
    if v.Some? && INT_MIN <= v.value <= INT_MAX then v else None
  }

  /** `std::atoi`: 0 where there is no number. */
  function Atoi(s: string): int {
    var v := LeadingNumber(s);
    if v.Some? then v.value else 0
  }

  /** The blanks, one by one. */
  const BLANKS := " \t\n\r\U{B}\U{C}"

  lemma {:induction false} SpacesAre(c: char)
    ensures IsSpace(c) <==> c in BLANKS
  {
  }

  /** A text that starts with a number: blanks, a sign or none, digits, and then no digit. */
  ghost predicate Numeral(s: string, blanks: string, sign: string, digits: string, rest: string) {
    && s == blanks + sign + digits + rest
    && (forall c :: c in blanks ==> c in BLANKS)
    && (sign == "" || sign == "+" || sign == "-")
    && digits != "" && AllDigits(digits)
    && (rest == "" || !('0' <= rest[0] <= '9'))
  }

  function Signed(sign: string, n: int): int {
    if sign == "-" then -n else n
  }

  lemma {:induction false} BlanksAre(b: string)
    ensures Blank(b) <==> forall c :: c in b ==> c in BLANKS
  {
    hide IsSpace;
    forall c | c in b
      ensures IsSpace(c) <==> c in BLANKS
    {
      SpacesAre(c);
    }
    if Blank(b) {
      forall c | c in b
        ensures IsSpace(c)
      {
        var i :| 0 <= i < |b| && b[i] == c;
      }
    }
  }

  lemma {:induction false} BlanksEnd(blanks: string, tail: string)
    requires Blank(blanks) && tail != "" && !IsSpace(tail[0])
    ensures SkipSpaces(blanks + tail, 0) == |blanks|
  {
    var s := blanks + tail;
    assert forall k :: 0 <= k < |blanks| ==> s[k] == blanks[k];
    assert s[|blanks|] == tail[0];
  }

  lemma {:induction false} DigitsEnd(head: string, digits: string, rest: string)
    requires AllDigits(digits) && (rest == "" || !IsDigit(rest[0]))
    ensures var s, end := head + digits + rest, |head| + |digits|;
            SkipDigits(s, |head|) == end && s[|head|..end] == digits
  {
    var s, end := head + digits + rest, |head| + |digits|;
    assert forall k :: |head| <= k < end ==> s[k] == digits[k - |head|];
    assert rest != "" ==> s[end] == rest[0];
  }

  lemma {:induction false} NumberAt(s: string, sign: string, i: nat, end: nat)
    requires i + |sign| < end <= |s| && SkipSpaces(s, 0) == i && SkipDigits(s, i + |sign|) == end
    requires if sign == "" then IsDigit(s[i]) else (sign == "+" || sign == "-") && s[i] == sign[0]
    ensures LeadingNumber(s) == Some(Signed(sign, DigitsValue(s[i + |sign|..end])))
  {
    hide DigitsValue, SkipSpaces, SkipDigits;
  }

  lemma {:induction false} NumeralRead(s: string, blanks: string, sign: string, digits: string, rest: string)
    requires Numeral(s, blanks, sign, digits, rest)
    ensures AllDigits(digits) && LeadingNumber(s) == Some(Signed(sign, DigitsValue(digits)))
  {
    hide DigitsValue, SkipSpaces, SkipDigits, Blank, LeadingNumber;
    var tail := sign + digits + rest;
    BlanksAre(blanks);
    assert tail[0] == if sign == "" then digits[0] else sign[0];
    BlanksEnd(blanks, tail);
    DigitsEnd(blanks + sign, digits, rest);
    assert blanks + tail == s;
    NumberAt(s, sign, |blanks|, |blanks| + |sign| + |digits|);
  }

  lemma {:induction false} BlankSlice(s: string, i: nat, j: nat)
    requires i <= j <= |s| && forall k :: i <= k < j ==> IsSpace(s[k])
    ensures forall c :: c in s[i..j] ==> c in BLANKS
  {
    hide IsSpace;
    BlanksAre(s[i..j]);
    assert forall k :: 0 <= k < j - i ==> s[i..j][k] == s[i + k];
  }

  lemma {:induction false} FourParts(s: string, i: nat, j: nat, k: nat)
    requires i <= j <= k <= |s|
    ensures s == s[..i] + s[i..j] + s[j..k] + s[k..]
  {
  }

  lemma {:induction false} SignSlice(s: string, i: nat, signed: bool)
    requires i <= |s| && signed == (i < |s| && (s[i] == '-' || s[i] == '+'))
    ensures var sign := if signed then s[i..i + 1] else "";
            sign == "" || sign == "+" || sign == "-"
  {
  }

  lemma {:induction false} NumeralFound(s: string) returns (blanks: string, sign: string, digits: string, rest: string)
    requires LeadingNumber(s).Some?
    ensures Numeral(s, blanks, sign, digits, rest)
  {
    hide DigitsValue, IsSpace, SkipSpaces, SkipDigits;
    var i := SkipSpaces(s, 0);
    var signed := i < |s| && (s[i] == '-' || s[i] == '+');
    var first := if signed then i + 1 else i;
    var end := SkipDigits(s, first);
    blanks, sign, digits, rest := s[..i], s[i..first], s[first..end], s[end..];
    BlankSlice(s, 0, i);
    SignSlice(s, i, signed);
    FourParts(s, i, first, end);
  }

  /** Every text has the parts that trimming takes apart. */
  lemma {:induction false} TrimFound(s: string) returns (left: string, value: string, right: string)
    ensures s == left + value + right && forall c :: c in left || c in right ==> c in BLANKS
    ensures value == "" || (value[0] !in BLANKS && value[|value| - 1] !in BLANKS)
  {
    hide IsSpace, SkipSpaces, DropSpaces;
    var i := SkipSpaces(s, 0);
    var k := DropSpaces(s, i, |s|);
    left, value, right := s[..i], s[i..k], s[k..];
    BlankSlice(s, 0, i);
    BlankSlice(s, k, |s|);
    if value != "" {
      SpacesAre(value[0]);
      SpacesAre(value[|value| - 1]);
    }
  }

  ghost predicate StartsWithNumber(s: string, n: int) {
    exists blanks, sign, digits, rest ::
      Numeral(s, blanks, sign, digits, rest) && AllDigits(digits) && n == Signed(sign, DigitsValue(digits))
  }

  /** What `std::stoi` reads, whatever stands behind the number: `n` if the text starts with a
      numeral for `n` that fits 32 bits; and it throws for every other text. */
  lemma {:induction false} StoiIff(s: string, n: int)
    ensures Stoi(s) == Some(n) <==> -0x8000_0000 <= n <= 0x7fff_ffff && StartsWithNumber(s, n)
  {
    hide LeadingNumber, Numeral, DigitsValue;
    if Stoi(s) == Some(n) {
      var blanks, sign, digits, rest := NumeralFound(s);
      NumeralRead(s, blanks, sign, digits, rest);
    }
    if StartsWithNumber(s, n) {
      var blanks, sign, digits, rest :| Numeral(s, blanks, sign, digits, rest) && AllDigits(digits)
        && n == Signed(sign, DigitsValue(digits));
      NumeralRead(s, blanks, sign, digits, rest);
    }
  }

  /** A text without a digit is no number: `std::stoi` throws and `std::atoi` gives 0. */
  lemma {:induction false} NoDigits(s: string)
    requires forall c :: c in s ==> !('0' <= c <= '9')
    ensures Stoi(s) == None && Atoi(s) == 0
  {
    hide SkipSpaces, DigitsValue;
    var i := SkipSpaces(s, 0);
    var first := if i < |s| && (s[i] == '-' || s[i] == '+') then i + 1 else i;
    if first < |s| {
      assert s[first] in s;
    }
  }

  /** The value of digits, and the digits of a value without a leading zero. */
  lemma {:induction false} DigitsAre(d: string, k: nat, n: nat)
    requires AllDigits(d) && k < 10
    ensures DigitsValue("") == 0 && DigitsValue(d + ["0123456789"[k]]) == 10 * DigitsValue(d) + k
    ensures Decimal(0) == "0" && (n > 0 ==> Decimal(n)[0] != '0')
    decreases n
  {
    var s := d + ["0123456789"[k]];
    assert s[..|s| - 1] == d;
    if n >= 10 {
      DigitsAre(d, k, n / 10);
    }
  }

  lemma {:induction false} DigitsAreNumber(s: string)
    requires AllDigits(s) && s != ""
    ensures LeadingNumber(s) == Some(DigitsValue(s))
  {
    assert !IsSpace(s[0]) && s[0] != '-' && s[0] != '+';
    assert SkipSpaces(s, 0) == 0;
    assert SkipDigits(s, 0) == |s|;
    assert s[0..|s|] == s;
  }

  lemma {:induction false} DecimalIsText(n: nat)
    ensures Trimmed(Decimal(n)) && NoLineBreak(Decimal(n)) && ' ' !in Decimal(n)
  {
    assert forall c :: c in Decimal(n) ==> IsDigit(c);
  }

  /** `std::stoi` undoes `std::to_string` on every `int` that is not negative. */
  lemma {:induction false} StoiDecimal(n: nat)
    requires n <= INT_MAX
    ensures Stoi(Decimal(n)) == Some(n)
  {
    DigitsAreNumber(Decimal(n));
  }
}
