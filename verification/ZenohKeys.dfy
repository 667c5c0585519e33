// Discovery keys (roslibrust_zenoh/src/lib.rs): a fact about a publisher, subscriber, service
// or client is announced under a key that spells it out, and read back from the key.
module ZenohKeys {
  import opened Wrappers
  import opened Bytes
  import opened Text
  import opened TextProperties

  datatype DiscoveryClass = Publisher | Subscriber | Service | Client

  // A type name is held as its UTF-8 bytes.
  datatype DiscoveryFact = DiscoveryFact(class_: DiscoveryClass, name: string, typeName: seq<Byte>, md5sum: string)

  function ClassName(c: DiscoveryClass): string {
    match c
    case Publisher => "pub"
    case Subscriber => "sub"
    case Service => "srv"
    case Client => "cl"
  }

  function ParseClass(s: string): Option<DiscoveryClass> {
    if s == "pub" then Some(Publisher)
    else if s == "sub" then Some(Subscriber)
    else if s == "srv" then Some(Service)
    else if s == "cl" then Some(Client)
    else None
  }

  /******* hexadecimal *******/

  function HexDigit(n: nat): char
    requires n < 16
  {
    if n < 10 then '0' + n as char else 'a' + (n - 10) as char
  }

  function HexValue(c: char): Option<nat> {
    if '0' <= c <= '9' then Some((c - '0') as nat)
    else if 'a' <= c <= 'f' then Some((c - 'a') as nat + 10)
    else if 'A' <= c <= 'F' then Some((c - 'A') as nat + 10)
    else None
  }

  function EncodeHex(bytes: seq<Byte>): string {
    if bytes == [] then ""
    else [HexDigit(bytes[0] / 16), HexDigit(bytes[0] % 16)] + EncodeHex(bytes[1..])
  }

  function DecodeHex(s: string): Option<seq<Byte>>
    decreases |s|
  {
    if s == "" then Some([])
    else if |s| == 1 then None
    else
      match (HexValue(s[0]), HexValue(s[1]), DecodeHex(s[2..]))
      case (Some(high), Some(low), Some(rest)) =>
        if high < 16 && low < 16 then
          var b: Byte := 16 * high + low;
          Some([b] + rest)
        else None
      case _ => None
  }

  function DecodeHexType(s: string): Option<seq<Byte>> {
    match DecodeHex(s)
    case None => None
    case Some(bytes) => if IsUtf8(bytes) then Some(bytes) else None
  }

  /******* keys *******/

  function TrimStartSlashes(s: string): string {
    if s != "" && s[0] == '/' then TrimStartSlashes(s[1..]) else s
  }

  function TrimEndSlashes(s: string): string {
    if s != "" && s[|s| - 1] == '/' then TrimEndSlashes(s[..|s| - 1]) else s
  }

  function TrimSlashes(s: string): string { TrimEndSlashes(TrimStartSlashes(s)) }

  const ROOT: string := "ros1_discovery_info"
  const NAMESPACE: string := "*"

  function MakeDiscoveryKey(c: DiscoveryClass, name: string, typeName: seq<Byte>, md5sum: string): string {
    ROOT + "/" + NAMESPACE + "/" + ClassName(c) + "/" + EncodeHex(typeName) + "/" + md5sum + "/" + NAMESPACE + "/"
    + TrimSlashes(name)
  }

  function ParseDiscoveryKey(key: string): Option<DiscoveryFact> {
    var parts := SplitOn(key, '/');
    if |parts| < 7 || parts[0] != ROOT then None
    else
      match (ParseClass(parts[2]), DecodeHexType(parts[3]))
      case (Some(c), Some(typeName)) => Some(DiscoveryFact(c, "/" + Join(parts[6..], "/"), typeName, parts[4]))
      case _ => None
  }

  /******* round trips *******/

  lemma HexByte(b: Byte)
    ensures HexValue(HexDigit(b / 16)) == Some(b / 16) && HexValue(HexDigit(b % 16)) == Some(b % 16)
    ensures HexDigit(b / 16) != '/' && HexDigit(b % 16) != '/'
  {
  }

  lemma {:induction false} HexRoundTrip(bytes: seq<Byte>)
    ensures DecodeHex(EncodeHex(bytes)) == Some(bytes)
    ensures '/' !in EncodeHex(bytes)
    decreases |bytes|
  {
    hide HexDigit, HexValue;
    if bytes != [] {
      HexByte(bytes[0]);
      HexRoundTrip(bytes[1..]);
      var s := EncodeHex(bytes);
      assert s[2..] == EncodeHex(bytes[1..]);
      assert bytes == [bytes[0]] + bytes[1..];
    }
  }

  lemma JoinOne(part: string, sep: string)
    ensures Join([part], sep) == part
  {
  }

  lemma {:induction false} JoinSplit(s: string, c: char)
    ensures Join(SplitOn(s, c), [c]) == s
    decreases |s|
  {
    hide IndexOf, Join;
    var i := IndexOf(s, c);
    if i == |s| {
      JoinOne(s, [c]);
    } else {
      JoinSplit(s[i + 1..], c);
      JoinOne(s[..i], [c]);
      JoinAppend([s[..i]], SplitOn(s[i + 1..], c), [c]);
      assert s == s[..i] + [c] + s[i + 1..];
    }
  }

  lemma ClassRoundTrip(c: DiscoveryClass)
    ensures ParseClass(ClassName(c)) == Some(c) && '/' !in ClassName(c)
  {
  }

  lemma SplitKey(classPart: string, hexPart: string, rest: string)
    requires '/' !in classPart && '/' !in hexPart
    ensures SplitOn(ROOT + "/" + NAMESPACE + "/" + classPart + "/" + hexPart + "/" + rest, '/')
            == [ROOT, NAMESPACE, classPart, hexPart] + SplitOn(rest, '/')
  {
    hide SplitOn;
    SplitOnFirst(hexPart, '/', rest);
    SplitOnFirst(classPart, '/', hexPart + "/" + rest);
    SplitOnFirst(NAMESPACE, '/', classPart + "/" + (hexPart + "/" + rest));
    SplitOnFirst(ROOT, '/', NAMESPACE + "/" + (classPart + "/" + (hexPart + "/" + rest)));
    assert ROOT + "/" + NAMESPACE + "/" + classPart + "/" + hexPart + "/" + rest
        == ROOT + "/" + (NAMESPACE + "/" + (classPart + "/" + (hexPart + "/" + rest)));
  }

  function AfterSlash(s: string): string {
    if IndexOf(s, '/') < |s| then s[IndexOf(s, '/') + 1..] else ""
  }

  // The name that is read from a key made with this md5 sum and trimmed name: each slash of
  // the md5 sum shifts the parts, so that two of them are always dropped.
  function NameInKey(md5sum: string, trimmed: string): string {
    if '/' !in md5sum then trimmed
    else if '/' !in AfterSlash(md5sum) then NAMESPACE + "/" + trimmed
    else AfterSlash(AfterSlash(md5sum)) + "/" + NAMESPACE + "/" + trimmed
  }

  lemma FirstSlashStays(a: string, b: string)
    ensures IndexOf(a + "/" + b, '/') == IndexOf(a, '/')
  {
    var i, s := IndexOf(a, '/'), a + "/" + b;
    assert s[..i] == a[..i];
    IndexOfUnique(s, '/', i);
  }

  lemma AfterSlashAppend(a: string, b: string)
    ensures AfterSlash(a + "/" + b) == if '/' in a then AfterSlash(a) + "/" + b else b
    ensures IndexOf(a + "/" + b, '/') == IndexOf(a, '/') < |a + "/" + b|
  {
    FirstSlashStays(a, b);
    var i := IndexOf(a, '/');
    assert i < |a| <==> '/' in a;
    hide IndexOf;
    RestOfThree(a, b, i);
  }

  lemma RestOfThree(a: string, b: string, i: nat)
    requires i <= |a|
    ensures (a + "/" + b)[i + 1..] == if i < |a| then a[i + 1..] + "/" + b else b
  {
  }

  lemma SecondSlash(md5sum: string, trimmed: string)
    ensures var rest := md5sum + "/" + (NAMESPACE + "/" + trimmed);
            && IndexOf(rest, '/') == IndexOf(md5sum, '/') < |rest|
            && IndexOf(AfterSlash(rest), '/') < |AfterSlash(rest)|
            && AfterSlash(AfterSlash(rest)) == NameInKey(md5sum, trimmed)
  {
    hide AfterSlash, IndexOf;
    var tail := NAMESPACE + "/" + trimmed;
    AfterSlashAppend(md5sum, tail);
    AfterSlashAppend(NAMESPACE, trimmed);
    if '/' in md5sum {
      AfterSlashAppend(AfterSlash(md5sum), tail);
      var more := AfterSlash(AfterSlash(md5sum));
      assert more + "/" + tail == more + "/" + NAMESPACE + "/" + trimmed;
    }
  }

  // Cutting a text with two slashes.
  lemma SplitTwice(s: string)
    requires IndexOf(s, '/') < |s| && IndexOf(AfterSlash(s), '/') < |AfterSlash(s)|
    ensures SplitOn(s, '/')[0] == s[..IndexOf(s, '/')]
    ensures |SplitOn(s, '/')| >= 2 && Join(SplitOn(s, '/')[2..], "/") == AfterSlash(AfterSlash(s))
    ensures |SplitOn(s, '/')| >= 3
  {
    var second := AfterSlash(s);
    JoinSplit(AfterSlash(second), '/');
    hide IndexOf, Join;
    assert SplitOn(s, '/') == [s[..IndexOf(s, '/')]] + SplitOn(second, '/');
    assert SplitOn(second, '/') == [second[..IndexOf(second, '/')]] + SplitOn(AfterSlash(second), '/');
    assert SplitOn(s, '/')[2..] == SplitOn(AfterSlash(second), '/');
  }

  lemma KeyText(c: DiscoveryClass, name: string, typeName: seq<Byte>, md5sum: string)
    ensures MakeDiscoveryKey(c, name, typeName, md5sum)
            == ROOT + "/" + NAMESPACE + "/" + ClassName(c) + "/" + EncodeHex(typeName) + "/"
               + (md5sum + "/" + (NAMESPACE + "/" + TrimSlashes(name)))
  {
    hide ClassName, EncodeHex, TrimSlashes;
  }

  lemma ParseOfParts(key: string, c: DiscoveryClass, typeName: seq<Byte>, last: seq<string>)
    requires IsUtf8(typeName) && |last| >= 3
    requires ParseClass(ClassName(c)) == Some(c) && DecodeHex(EncodeHex(typeName)) == Some(typeName)
    requires SplitOn(key, '/') == [ROOT, NAMESPACE, ClassName(c), EncodeHex(typeName)] + last
    ensures ParseDiscoveryKey(key) == Some(DiscoveryFact(c, "/" + Join(last[2..], "/"), typeName, last[0]))
  {
    hide IsUtf8, Join, DecodeHex, EncodeHex, ParseClass, ClassName, SplitOn;
    assert SplitOn(key, '/')[6..] == last[2..];
  }

  // What is read back from a key, for any name and md5 sum: the class, the type, the md5 sum
  // up to its first slash, and the trimmed name with the remains of the md5 sum in front.
  lemma ParseOfKey(c: DiscoveryClass, name: string, typeName: seq<Byte>, md5sum: string)
    requires IsUtf8(typeName)
    ensures ParseDiscoveryKey(MakeDiscoveryKey(c, name, typeName, md5sum))
            == Some(DiscoveryFact(c, "/" + NameInKey(md5sum, TrimSlashes(name)), typeName,
                                  md5sum[..IndexOf(md5sum, '/')]))
  {
    hide IsUtf8, Join, TrimSlashes, DecodeHex, EncodeHex, ParseClass, ClassName, NameInKey, IndexOf, AfterSlash;
    hide SplitOn, MakeDiscoveryKey, ParseDiscoveryKey;
    ClassRoundTrip(c);
    HexRoundTrip(typeName);
    var trimmed := TrimSlashes(name);
    var rest := md5sum + "/" + (NAMESPACE + "/" + trimmed);
    KeyText(c, name, typeName, md5sum);
    SplitKey(ClassName(c), EncodeHex(typeName), rest);
    SecondSlash(md5sum, trimmed);
    SplitTwice(rest);
    assert rest[..IndexOf(rest, '/')] == md5sum[..IndexOf(md5sum, '/')];
    ParseOfParts(MakeDiscoveryKey(c, name, typeName, md5sum), c, typeName, SplitOn(rest, '/'));
  }

  lemma SlashIsCut(md5sum: string)
    ensures md5sum[..IndexOf(md5sum, '/')] == md5sum <==> '/' !in md5sum
  {
    var i := IndexOf(md5sum, '/');
    if i == |md5sum| { assert md5sum[..i] == md5sum; }
  }

  // A key gives back exactly the fact it was made from if and only if the md5 sum has no
  // slash and the name starts with its only leading slash and does not end with another.
  lemma KeyRoundTrip(c: DiscoveryClass, name: string, typeName: seq<Byte>, md5sum: string)
    requires IsUtf8(typeName)
    ensures ParseDiscoveryKey(MakeDiscoveryKey(c, name, typeName, md5sum))
            == Some(DiscoveryFact(c, name, typeName, md5sum))
            <==> '/' !in md5sum && name == "/" + TrimSlashes(name)
  {
    hide IsUtf8, MakeDiscoveryKey, ParseDiscoveryKey, TrimSlashes;
    ParseOfKey(c, name, typeName, md5sum);
    SlashIsCut(md5sum);
  }

  /******* the names that are used *******/

  predicate IsLetter(c: char) { 'a' <= c <= 'z' || 'A' <= c <= 'Z' }

  predicate IsSegment(s: string) {
    s != "" && IsLetter(s[0]) && forall c <- s :: IsLetter(c) || '0' <= c <= '9' || c == '_'
  }

  // `/name(/name)*`, where each name is a letter followed by letters, digits and underscores.
  predicate ValidGlobalName(name: string) {
    name != "" && name[0] == '/' && forall s <- SplitOn(name[1..], '/') :: IsSegment(s)
  }

  lemma {:induction false} SegmentsEnd(s: string)
    requires forall part <- SplitOn(s, '/') :: IsSegment(part)
    ensures s != "" && s[0] != '/' && s[|s| - 1] != '/'
    decreases |s|
  {
    var i := IndexOf(s, '/');
    assert SplitOn(s, '/')[0] in SplitOn(s, '/');
    if i < |s| {
      assert s[..i] in SplitOn(s, '/');
      assert forall part <- SplitOn(s[i + 1..], '/') :: part in SplitOn(s, '/');
      SegmentsEnd(s[i + 1..]);
    } else {
      assert s[|s| - 1] in s;
    }
  }

  lemma TrimOneSlash(rest: string)
    requires rest != "" && rest[0] != '/' && rest[|rest| - 1] != '/'
    ensures TrimSlashes("/" + rest) == rest
  {
    var s := "/" + rest;
    assert s[1..] == rest;
    assert TrimStartSlashes(s) == TrimStartSlashes(rest) == rest;
  }

  // Every valid global name survives.
  lemma ValidNameRoundTrip(c: DiscoveryClass, name: string, typeName: seq<Byte>, md5sum: string)
    requires IsUtf8(typeName) && ValidGlobalName(name) && '/' !in md5sum
    ensures ParseDiscoveryKey(MakeDiscoveryKey(c, name, typeName, md5sum))
            == Some(DiscoveryFact(c, name, typeName, md5sum))
  {
    hide IsUtf8, MakeDiscoveryKey, ParseDiscoveryKey, SplitOn;
    SegmentsEnd(name[1..]);
    assert name == "/" + name[1..];
    TrimOneSlash(name[1..]);
    KeyRoundTrip(c, name, typeName, md5sum);
  }

  /******* how keys are written *******/

  lemma HexDigitsAreWritten(n: nat)
    requires n < 16
    ensures HexDigit(n) == "0123456789abcdef"[n]
    ensures HexValue("0123456789abcdef"[n]) == Some(n) && HexValue("0123456789ABCDEF"[n]) == Some(n)
  {
  }

  predicate IsHexDigit(c: char) { '0' <= c <= '9' || 'a' <= c <= 'f' || 'A' <= c <= 'F' }

  // Hexadecimal text has an even number of digits, and half as many bytes.
  lemma {:induction false} WhatIsHex(s: string)
    ensures DecodeHex(s).Some? <==> |s| % 2 == 0 && forall c <- s :: IsHexDigit(c)
    ensures DecodeHex(s).Some? ==> 2 * |DecodeHex(s).value| == |s|
    decreases |s|
  {
    if |s| == 1 {
    } else if s != "" {
      WhatIsHex(s[2..]);
      OneDigit(s[0]);
      OneDigit(s[1]);
      hide IsHexDigit, HexValue;
      assert s == [s[0], s[1]] + s[2..];
      assert (forall c <- s :: IsHexDigit(c)) <==>
             IsHexDigit(s[0]) && IsHexDigit(s[1]) && forall c <- s[2..] :: IsHexDigit(c);
    }
  }

  lemma OneDigit(c: char)
    ensures HexValue(c).Some? <==> IsHexDigit(c)
    ensures HexValue(c).Some? ==> HexValue(c).value < 16
  {
  }

  lemma KeyHeads()
    ensures ROOT + "/" + NAMESPACE + "/" + "pub" + "/" == "ros1_discovery_info/*/pub/"
    ensures ROOT + "/" + NAMESPACE + "/" + "sub" + "/" == "ros1_discovery_info/*/sub/"
    ensures ROOT + "/" + NAMESPACE + "/" + "srv" + "/" == "ros1_discovery_info/*/srv/"
    ensures ROOT + "/" + NAMESPACE + "/" + "cl" + "/" == "ros1_discovery_info/*/cl/"
    ensures "/" + NAMESPACE + "/" == "/*/"
  {
  }

  // The key of a name without slashes around it, letter by letter.
  lemma KeyFormat(c: DiscoveryClass, name: string, typeName: seq<Byte>, md5sum: string)
    requires name != "" && name[0] != '/' && name[|name| - 1] != '/'
    ensures MakeDiscoveryKey(c, "/" + name, typeName, md5sum)
            == (match c
                case Publisher => "ros1_discovery_info/*/pub/"
                case Subscriber => "ros1_discovery_info/*/sub/"
                case Service => "ros1_discovery_info/*/srv/"
                case Client => "ros1_discovery_info/*/cl/")
               + EncodeHex(typeName) + "/" + md5sum + "/*/" + name
  {
    hide TrimSlashes, EncodeHex;
    KeyHeads();
    TrimOneSlash(name);
    var head := ROOT + "/" + NAMESPACE + "/" + ClassName(c) + "/" + EncodeHex(typeName) + "/" + md5sum;
    assert MakeDiscoveryKey(c, "/" + name, typeName, md5sum) == head + ("/" + NAMESPACE + "/") + name;
  }

  /******* which texts are keys *******/

  // The first six parts of a key, as they stand in it; what follows them is the name.
  function SixParts(root: string, a: string, class_: string, hex: string, md5sum: string, b: string): string {
    root + "/" + a + "/" + class_ + "/" + hex + "/" + md5sum + "/" + b
  }

  lemma SplitSix(root: string, a: string, class_: string, hex: string, md5sum: string, b: string, name: string)
    requires forall part <- [root, a, class_, hex, md5sum, b] :: '/' !in part
    ensures SplitOn(SixParts(root, a, class_, hex, md5sum, b) + "/" + name, '/')
            == [root, a, class_, hex, md5sum, b] + SplitOn(name, '/')
    ensures SplitOn(SixParts(root, a, class_, hex, md5sum, b), '/') == [root, a, class_, hex, md5sum, b]
  {
    hide SplitOn;
    var parts := [root, a, class_, hex, md5sum, b];
    assert parts[0] == root && parts[1] == a && parts[2] == class_ && parts[3] == hex;
    assert parts[4] == md5sum && parts[5] == b;
    SplitThree(root, a, class_, hex + "/" + md5sum + "/" + b);
    SplitThree(root, a, class_, hex + "/" + md5sum + "/" + b + "/" + name);
    SplitThree(hex, md5sum, b, name);
    SplitOnFirst(hex, '/', md5sum + "/" + b);
    SplitOnFirst(md5sum, '/', b);
    SplitOnFirst(b, '/', "");
    assert hex + "/" + md5sum + "/" + b == hex + "/" + (md5sum + "/" + b);
    assert SixParts(root, a, class_, hex, md5sum, b)
           == root + "/" + a + "/" + class_ + "/" + (hex + "/" + md5sum + "/" + b);
    assert SixParts(root, a, class_, hex, md5sum, b) + "/" + name
           == root + "/" + a + "/" + class_ + "/" + (hex + "/" + md5sum + "/" + b + "/" + name);
  }

  lemma SplitThree(a: string, b: string, c: string, rest: string)
    requires '/' !in a && '/' !in b && '/' !in c
    ensures SplitOn(a + "/" + b + "/" + c + "/" + rest, '/') == [a, b, c] + SplitOn(rest, '/')
  {
    hide SplitOn;
    SplitOnFirst(c, '/', rest);
    SplitOnFirst(b, '/', c + "/" + rest);
    SplitOnFirst(a, '/', b + "/" + (c + "/" + rest));
    assert a + "/" + b + "/" + c + "/" + rest == a + "/" + (b + "/" + (c + "/" + rest));
  }

  // The class that a part of a key names.
  predicate NamesClass(part: string, c: DiscoveryClass) {
    match c
    case Publisher => part == "pub"
    case Subscriber => part == "sub"
    case Service => part == "srv"
    case Client => part == "cl"
  }

  lemma ClassIsNamed(part: string, c: DiscoveryClass)
    ensures NamesClass(part, c) <==> ParseClass(part) == Some(c)
  {
    assert "pub"[0] == 'p' && "sub"[1] == 'u' && "srv"[1] == 'r' && "cl"[0] == 'c' && "srv"[0] == "sub"[0] == 's';
  }

  // Any text of seven parts or more is a key exactly if its first part is the root, its third
  // names a class and its fourth is the hexadecimal form of a text; the second and the sixth
  // do not matter. With six parts it is none.
  lemma WhatIsAKey(root: string, a: string, class_: string, hex: string, md5sum: string, b: string, name: string)
    requires forall part <- [root, a, class_, hex, md5sum, b] :: '/' !in part
    ensures ParseDiscoveryKey(SixParts(root, a, class_, hex, md5sum, b)) == None
    ensures var r := ParseDiscoveryKey(SixParts(root, a, class_, hex, md5sum, b) + "/" + name);
            && (r.Some? <==> && root == "ros1_discovery_info" && class_ in {"pub", "sub", "srv", "cl"}
                             && DecodeHex(hex).Some? && IsUtf8(DecodeHex(hex).value))
            && (r.Some? ==> && r.value.name == "/" + name && r.value.md5sum == md5sum
                            && NamesClass(class_, r.value.class_) && Some(r.value.typeName) == DecodeHex(hex))
  {
    hide SplitOn, Join, DecodeHex, IsUtf8, ParseClass;
    SplitSix(root, a, class_, hex, md5sum, b, name);
    JoinSplit(name, '/');
    assert ([root, a, class_, hex, md5sum, b] + SplitOn(name, '/'))[6..] == SplitOn(name, '/');
    SplitIsNotEmpty(name);
    forall c ensures NamesClass(class_, c) <==> ParseClass(class_) == Some(c) {
      ClassIsNamed(class_, c);
    }
    if class_ in {"pub", "sub", "srv", "cl"} {
      assert exists c :: NamesClass(class_, c) by {
        assert class_ == "pub" ==> NamesClass(class_, Publisher);
        assert class_ == "sub" ==> NamesClass(class_, Subscriber);
        assert class_ == "srv" ==> NamesClass(class_, Service);
        assert class_ == "cl" ==> NamesClass(class_, Client);
      }
    }
  }

  lemma SplitIsNotEmpty(s: string)
    ensures |SplitOn(s, '/')| >= 1
  {
  }
}
