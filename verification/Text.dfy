// The `str` operations of Rust that message parsing and md5 calculation use.
module Text {
  import opened Wrappers

  // `char::is_whitespace`: the characters with the Unicode property White_Space.
  predicate IsSpace(c: char) {
    c == ' ' || '\t' <= c <= '\r' || c == '\U{85}' || c == '\U{A0}' || c == '\U{1680}'
    || '\U{2000}' <= c <= '\U{200A}' || c == '\U{2028}' || c == '\U{2029}' || c == '\U{202F}'
    || c == '\U{205F}' || c == '\U{3000}'
  }

  predicate NoSpaces(s: string) { forall c <- s :: !IsSpace(c) }

  predicate IsToken(s: string) { s != "" && NoSpaces(s) }

  function TrimStart(s: string): string {
    if s != [] && IsSpace(s[0]) then TrimStart(s[1..]) else s
  }

  function TrimEnd(s: string): string {
    if s != [] && IsSpace(s[|s| - 1]) then TrimEnd(s[..|s| - 1]) else s
  }

  function Trim(s: string): string { TrimEnd(TrimStart(s)) }

  // Neither starts nor ends with whitespace.
  predicate IsTrimmed(s: string) { s == "" || (!IsSpace(s[0]) && !IsSpace(s[|s| - 1])) }

  function IndexOf(s: string, c: char): (i: nat)
    ensures i <= |s| && c !in s[..i] && (i < |s| ==> s[i] == c)
  {
    if s == [] || s[0] == c then 0 else 1 + IndexOf(s[1..], c)
  }

  function FirstSpace(s: string): (i: nat)
    ensures i <= |s| && NoSpaces(s[..i]) && (i < |s| ==> IsSpace(s[i]))
  {
    if s == [] || IsSpace(s[0]) then 0 else 1 + FirstSpace(s[1..])
  }

  // `split(c)`
  function SplitOn(s: string, c: char): (r: seq<string>)
    ensures r != []
    decreases |s|
  {
    var i := IndexOf(s, c);
    if i == |s| then [s] else [s[..i]] + SplitOn(s[i + 1..], c)
  }

  // `lines()`: a final line feed does not start another line, and "\r\n" ends a line.
  function Lines(s: string): seq<string>
    decreases |s|
  {
    if s == [] then []
    else
      var i := IndexOf(s, '\n');
      if i == |s| then [s] else [DropCarriageReturn(s[..i])] + Lines(s[i + 1..])
  }

  function DropCarriageReturn(s: string): string {
    if s != [] && s[|s| - 1] == '\r' then s[..|s| - 1] else s
  }

  function SplitWhitespace(s: string): (tokens: seq<string>)
    ensures forall t <- tokens :: IsToken(t)
    decreases |s|
  {
    if s == [] then []
    else if IsSpace(s[0]) then SplitWhitespace(s[1..])
    else
      var i := FirstSpace(s);
      [s[..i]] + SplitWhitespace(s[i..])
  }

  function Join(parts: seq<string>, sep: string): string {
    if parts == [] then ""
    else if |parts| == 1 then parts[0]
    else parts[0] + sep + Join(parts[1..], sep)
  }

  predicate StartsWith(s: string, prefix: string) { prefix <= s }

  predicate OccursAt(s: string, pat: string, i: int) {
    0 <= i && i + |pat| <= |s| && s[i..i + |pat|] == pat
  }

  predicate Contains(s: string, pat: string) {
    exists i | 0 <= i <= |s| :: OccursAt(s, pat, i)
  }

  // The first occurrence of `pat` at or after `from`.
  function Find(s: string, pat: string, from: nat): (i: Option<nat>)
    requires from <= |s|
    ensures i.Some? ==> from <= i.value && OccursAt(s, pat, i.value)
                        && forall j | from <= j < i.value :: !OccursAt(s, pat, j)
    ensures i.None? ==> forall j | from <= j :: !OccursAt(s, pat, j)
    decreases |s| - from
  {
    if OccursAt(s, pat, from) then Some(from)
    else if from == |s| then None
    else Find(s, pat, from + 1)
  }

  // `split(pat)` for a string pattern
  function SplitStr(s: string, pat: string): (r: seq<string>)
    requires pat != ""
    ensures r != []
    decreases |s|
  {
    match Find(s, pat, 0)
    case None => [s]
    case Some(i) => [s[..i]] + SplitStr(s[i + |pat|..], pat)
  }

  // `replace(pat, replacement)`
  function Replace(s: string, pat: string, replacement: string): string
    requires pat != ""
    decreases |s|
  {
    match Find(s, pat, 0)
    case None => s
    case Some(i) => s[..i] + replacement + Replace(s[i + |pat|..], pat, replacement)
  }

  function Repeat(c: char, n: nat): (r: string)
    ensures |r| == n && forall i | 0 <= i < n :: r[i] == c
  {
    if n == 0 then "" else [c] + Repeat(c, n - 1)
  }

  // The separator line between the sections of an expanded definition.
  const SEPARATOR: string := Repeat('=', 80) + "\n"

  function ShowNat(n: nat): string {
    if n < 10 then [DigitChar(n)] else ShowNat(n / 10) + [DigitChar(n % 10)]
  }

  function DigitChar(d: nat): char
    requires d < 10
  {
    '0' + d as char
  }

  predicate IsDigit(c: char) { '0' <= c <= '9' }

  predicate AllDigits(s: string) { forall c <- s :: IsDigit(c) }

  function DigitsValue(s: string): nat
    requires AllDigits(s)
  {
    if s == [] then 0
    else
      var last := s[|s| - 1];
      assert last in s;
      DigitsValue(s[..|s| - 1]) * 10 + (last - '0') as nat
  }

  // `parse::<usize>()` on a 64-bit machine, which also takes a leading plus sign.
  function ParseUsize(s: string): Option<nat> {
    var digits := if s != [] && s[0] == '+' then s[1..] else s;
    if digits != [] && AllDigits(digits) && DigitsValue(digits) < 0x1_0000_0000_0000_0000
    then Some(DigitsValue(digits))
    else None
  }

  // A decimal number as it is printed: no sign, no leading zero.
  predicate CanonicalDecimal(s: string) {
    s != [] && AllDigits(s) && (|s| > 1 ==> s[0] != '0')
  }

  lemma {:induction false} ShowDigitsValue(s: string)
    requires CanonicalDecimal(s)
    ensures ShowNat(DigitsValue(s)) == s
    ensures s[0] != '0' ==> DigitsValue(s) >= 1
  {
    var front, last := s[..|s| - 1], s[|s| - 1];
    assert s == front + [last] && last in s;
    if |s| > 1 {
      assert front[0] == s[0];
      assert forall c <- front :: c in s;
      ShowDigitsValue(front);
    }
  }
}
