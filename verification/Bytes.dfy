// Bytes on the wire: little-endian lengths and UTF-8.
module Bytes {
  type Byte = b: int | 0 <= b < 256

  const U32_RANGE: nat := 0x1_0000_0000

  // `write_u32::<LittleEndian>` of `n as u32`
  function LittleEndian(n: nat): (bytes: seq<Byte>)
    ensures |bytes| == 4
  {
    [n % 256, n / 256 % 256, n / 65536 % 256, n / 16777216 % 256]
  }

  function FromLittleEndian(bytes: seq<Byte>): nat
    requires |bytes| == 4
  {
    bytes[0] as int + 256 * (bytes[1] as int) + 65536 * (bytes[2] as int) + 16777216 * (bytes[3] as int)
  }

  lemma LittleEndianRoundTrip(n: nat)
    ensures FromLittleEndian(LittleEndian(n)) == n % U32_RANGE
  {
    var a, b, c := n / 256, n / 65536, n / 16777216;
    assert n == 256 * a + n % 256 && a == 256 * b + a % 256 && b == 256 * c + b % 256;
    assert c == 256 * (n / U32_RANGE) + c % 256;
  }

  /******* UTF-8 *******/

  predicate IsTail(b: Byte) { 0x80 <= b <= 0xBF }

  // The length of the well-formed character at the start, or 0 (table 3-7 of the Unicode Standard).
  function CharLength(s: seq<Byte>): nat {
    if s == [] then 0
    else if s[0] <= 0x7F then 1
    else if 0xC2 <= s[0] <= 0xDF && |s| >= 2 && IsTail(s[1]) then 2
    else if |s| >= 3 && IsTail(s[2])
            && ((s[0] == 0xE0 && 0xA0 <= s[1] <= 0xBF)
                || ((0xE1 <= s[0] <= 0xEC || 0xEE <= s[0] <= 0xEF) && IsTail(s[1]))
                || (s[0] == 0xED && 0x80 <= s[1] <= 0x9F)) then 3
    else if |s| >= 4 && IsTail(s[2]) && IsTail(s[3])
            && ((s[0] == 0xF0 && 0x90 <= s[1] <= 0xBF)
                || (0xF1 <= s[0] <= 0xF3 && IsTail(s[1]))
                || (s[0] == 0xF4 && 0x80 <= s[1] <= 0x8F)) then 4
    else 0
  }

  lemma CharLengthFits(s: seq<Byte>)
    ensures CharLength(s) <= |s|
  {
  }

  predicate IsUtf8(s: seq<Byte>)
    decreases |s|
  {
    CharLengthFits(s);
    s == [] || (CharLength(s) > 0 && IsUtf8(s[CharLength(s)..]))
  }

  lemma CharLengthAppend(a: seq<Byte>, b: seq<Byte>)
    requires CharLength(a) > 0
    ensures CharLength(a + b) == CharLength(a)
  {
  }

  lemma {:induction false} Utf8Append(a: seq<Byte>, b: seq<Byte>)
    requires IsUtf8(a) && IsUtf8(b)
    ensures IsUtf8(a + b)
    decreases |a|
  {
    hide CharLength;
    CharLengthFits(a);
    if a == [] {
      assert a + b == b;
    } else {
      CharLengthAppend(a, b);
      assert (a + b)[CharLength(a)..] == a[CharLength(a)..] + b;
      Utf8Append(a[CharLength(a)..], b);
    }
  }

  lemma {:induction false} AsciiIsUtf8(s: seq<Byte>)
    requires forall b <- s :: b <= 0x7F
    ensures IsUtf8(s)
    decreases |s|
  {
    if s != [] {
      assert s[0] in s && forall b <- s[1..] :: b in s;
      AsciiIsUtf8(s[1..]);
    }
  }

  // The least byte comes first.
  lemma LeastByteFirst(n: nat)
    requires n < 0x1_0000_0000
    ensures var b := LittleEndian(n);
            n == b[0] as int + 0x100 * (b[1] as int) + 0x1_0000 * (b[2] as int) + 0x100_0000 * (b[3] as int)
  {
    LittleEndianRoundTrip(n);
  }

  /******* what UTF-8 encodes *******/

  // The Unicode scalar values: all code points but the surrogates.
  predicate IsScalar(n: nat) { n < 0xD800 || 0xE000 <= n < 0x11_0000 }

  function Encode(n: nat): (bytes: seq<Byte>)
    requires IsScalar(n)
    ensures 1 <= |bytes| <= 4
  {
    if n < 0x80 then [n]
    else if n < 0x800 then [0xC0 + n / 64, 0x80 + n % 64]
    else if n < 0x1_0000 then [0xE0 + n / 4096, 0x80 + n / 64 % 64, 0x80 + n % 64]
    else [0xF0 + n / 262144, 0x80 + n / 4096 % 64, 0x80 + n / 64 % 64, 0x80 + n % 64]
  }

  function EncodeAll(text: seq<nat>): seq<Byte>
    requires forall n <- text :: IsScalar(n)
  {
    if text == [] then [] else Encode(text[0]) + EncodeAll(text[1..])
  }

  lemma EncodedLength(n: nat, rest: seq<Byte>)
    requires IsScalar(n)
    ensures CharLength(Encode(n) + rest) == |Encode(n)|
  {
    var s := Encode(n) + rest;
    if n < 0x80 {
      assert s[0] == n;
    } else if n < 0x800 {
      assert s[0] == 0xC0 + n / 64 && s[1] == 0x80 + n % 64;
    } else if n < 0x1_0000 {
      assert s[0] == 0xE0 + n / 4096 && s[1] == 0x80 + n / 64 % 64 && s[2] == 0x80 + n % 64;
      SecondOfThree(n);
    } else {
      assert s[0] == 0xF0 + n / 262144 && s[1] == 0x80 + n / 4096 % 64 && s[2] == 0x80 + n / 64 % 64;
      assert s[3] == 0x80 + n % 64;
      SecondOfFour(n);
    }
  }

  lemma SecondOfThree(n: nat)
    requires 0x800 <= n < 0x1_0000 && IsScalar(n)
    ensures n / 4096 == 0 ==> n / 64 % 64 >= 0x20
    ensures n / 4096 == 0xD ==> n / 64 % 64 < 0x20
  {
  }

  lemma SecondOfFour(n: nat)
    requires 0x1_0000 <= n < 0x11_0000
    ensures n / 262144 == 0 ==> n / 4096 % 64 >= 0x10
    ensures n / 262144 == 4 ==> n / 4096 % 64 < 0x10
    ensures n / 262144 <= 4
  {
  }

  lemma {:induction false} EncodedIsUtf8(text: seq<nat>)
    requires forall n <- text :: IsScalar(n)
    ensures IsUtf8(EncodeAll(text))
    decreases |text|
  {
    hide CharLength, Encode;
    if text != [] {
      assert text[0] in text && forall n <- text[1..] :: n in text;
      EncodedLength(text[0], EncodeAll(text[1..]));
      EncodedIsUtf8(text[1..]);
      var s := EncodeAll(text);
      assert s[|Encode(text[0])|..] == EncodeAll(text[1..]);
    }
  }

  lemma Parts(q: int, r: int)
    ensures 0 <= r < 64 ==> (64 * q + r) / 64 == q && (64 * q + r) % 64 == r
    ensures 0 <= r < 4096 ==> (4096 * q + r) / 4096 == q
    ensures 0 <= r < 262144 ==> (262144 * q + r) / 262144 == q
  {
  }

  lemma Sixes(w: int, x: int, y: int, z: int)
    requires 0 <= x < 64 && 0 <= y < 64 && 0 <= z < 64
    ensures var n := 262144 * w + 4096 * x + 64 * y + z;
            n % 64 == z && n / 64 % 64 == y && n / 4096 % 64 == x && n / 4096 == 64 * w + x && n / 262144 == w
  {
    Parts(4096 * w + 64 * x + y, z);
    Parts(64 * w + x, y);
    Parts(64 * w + x, 64 * y + z);
    Parts(w, x);
    Parts(w, 4096 * x + 64 * y + z);
  }

  lemma TwoBytes(head: int, b: int) returns (n: nat)
    requires 0xC2 <= head <= 0xDF && 0x80 <= b <= 0xBF
    ensures IsScalar(n) && Encode(n) == [head, b]
  {
    n := 64 * (head - 0xC0) + (b - 0x80);
  }

  lemma ThreeBytes(head: int, b: int, c: int) returns (n: nat)
    requires 0x80 <= c <= 0xBF
    requires (head == 0xE0 && 0xA0 <= b <= 0xBF) || (0xE1 <= head <= 0xEC && 0x80 <= b <= 0xBF)
             || (0xEE <= head <= 0xEF && 0x80 <= b <= 0xBF) || (head == 0xED && 0x80 <= b <= 0x9F)
    ensures IsScalar(n) && Encode(n) == [head, b, c]
  {
    Sixes(0, head - 0xE0, b - 0x80, c - 0x80);
    n := 4096 * (head - 0xE0) + 64 * (b - 0x80) + (c - 0x80);
  }

  lemma FourBytes(head: int, b: int, c: int, d: int) returns (n: nat)
    requires 0x80 <= c <= 0xBF && 0x80 <= d <= 0xBF
    requires (head == 0xF0 && 0x90 <= b <= 0xBF) || (0xF1 <= head <= 0xF3 && 0x80 <= b <= 0xBF)
             || (head == 0xF4 && 0x80 <= b <= 0x8F)
    ensures IsScalar(n) && Encode(n) == [head, b, c, d]
  {
    Sixes(head - 0xF0, b - 0x80, c - 0x80, d - 0x80);
    n := 262144 * (head - 0xF0) + 4096 * (b - 0x80) + 64 * (c - 0x80) + (d - 0x80);
  }

  lemma FirstScalar(s: seq<Byte>) returns (n: nat)
    requires CharLength(s) > 0
    ensures CharLength(s) <= |s| && IsScalar(n) && Encode(n) == s[..CharLength(s)]
  {
    if CharLength(s) == 1 {
      n := s[0];
    } else {
      hide Encode, IsScalar;
      if CharLength(s) == 2 {
        n := TwoBytes(s[0], s[1]);
      } else if CharLength(s) == 3 {
        n := ThreeBytes(s[0], s[1], s[2]);
      } else {
        n := FourBytes(s[0], s[1], s[2], s[3]);
      }
    }
  }

  // The byte strings that are accepted are exactly the encoded texts.
  lemma {:induction false} Utf8IsEncoded(s: seq<Byte>) returns (text: seq<nat>)
    requires IsUtf8(s)
    ensures (forall n <- text :: IsScalar(n)) && EncodeAll(text) == s
    decreases |s|
  {
    hide CharLength, Encode;
    text := [];
    if s != [] {
      var n := FirstScalar(s);
      var rest := Utf8IsEncoded(s[CharLength(s)..]);
      text := [n] + rest;
      assert text[1..] == rest;
      assert s == s[..CharLength(s)] + s[CharLength(s)..];
    }
  }
}
