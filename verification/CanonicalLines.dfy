// The lines of ROS1 message files on which the parser and the text cleaner agree, and what
// they agree on: a constant line cleans to "type NAME=value", a field line to "type name".
module CanonicalLines {
  import opened Wrappers
  import opened Text
  import opened TextProperties
  import opened Messages
  import opened MessageParser
  import opened DefinitionMd5
  import opened Cleaning

  /******* canonical types *******/

  function BaseOf(typeName: string): string { typeName[..IndexOf(typeName, '[')] }

  predicate CanonicalSize(size: string) {
    size == "" || (CanonicalDecimal(size) && DigitsValue(size) < 0x1_0000_0000_0000_0000)
  }

  // A name, or an array of a name whose size, if any, is written the way it is printed.
  predicate CanonicalType(typeName: string) {
    var base := BaseOf(typeName);
    var suffix := typeName[|base|..];
    var items := SplitOn(base, '/');
    && '=' !in typeName && base != "char"
    && (suffix == "" || (|suffix| >= 2 && suffix[|suffix| - 1] == ']' && CanonicalSize(suffix[1..|suffix| - 1])))
    && (|items| == 1 || (|items| == 2 && !IsIntrinsic(Ros1, items[1])))
  }

  /******* canonical lines *******/

  predicate CanonicalField(words: seq<string>) {
    && |words| == 2 && CanonicalType(words[0]) && '=' !in words[1]
    && (!IsBaseType(BaseOf(words[0])) ==> !Contains(words[1], words[0]))
  }

  // The equal sign has blanks on both sides or on none, and the value has single blanks only.
  predicate CanonicalConstant(line: string) {
    match SplitTypeFromLine(line)
    case None => false
    case Some((typeName, remainder)) =>
      var equal := IndexOf(remainder, '=');
      && equal < |remainder| && IsBaseType(typeName)
      && CanonicalEquation(remainder[..equal], remainder[equal + 1..])
  }

  predicate CanonicalEquation(left: string, right: string) {
    && IsToken(Trim(left))
    && Trim(right) == Join(SplitWhitespace(right), " ") && !Contains(Trim(right), " = ")
    && (SpaceLast(left) <==> SpaceFirst(right))
  }

  predicate SpaceLast(s: string) { s != "" && IsSpace(s[|s| - 1]) }

  predicate SpaceFirst(s: string) { s != "" && IsSpace(s[0]) }

  predicate CanonicalLine(raw: string) {
    var text := StripComments(raw);
    && (IsStringConstantLine(TrimStart(raw)) ==> '#' !in raw)
    && (SplitWhitespace(text) == [] || CanonicalField(SplitWhitespace(text)) || CanonicalConstant(Trim(text)))
  }

  predicate CanonicalSource(source: string) { forall line <- Lines(source) :: CanonicalLine(line) }

  /******* what a cleaned line says *******/

  function ConstantText(c: ConstantInfo): string { c.constantType + " " + c.constantName + "=" + c.constantValue }

  predicate PlainConstant(c: ConstantInfo) { IsBaseType(c.constantType) && IsToken(c.constantName) }

  // The cleaned line declares the field.
  predicate DeclaresField(line: string, f: FieldInfo, o: Origin) {
    var words := SplitWhitespace(line);
    && CanonicalField(words) && line == words[0] + " " + words[1]
    && f.fieldName == words[1] && ParseType(words[0], o) == Ok(f.fieldType)
  }

  predicate Says(line: string, entry: Entry, o: Origin) {
    match entry
    case Blank => line == ""
    case Field(f) => line != "" && '=' !in line && DeclaresField(line, f, o)
    case Constant(c) => line == ConstantText(c) && PlainConstant(c)
  }

  /******* one line *******/

  lemma {:induction false} SpacesOnly(s: string)
    requires SplitWhitespace(s) == []
    ensures forall i | 0 <= i < |s| :: IsSpace(s[i])
  {
    hide IsSpace;
    if s != "" {
      SpacesOnly(s[1..]);
      assert forall i | 1 <= i < |s| :: s[i] == s[1..][i - 1];
    }
  }

  lemma SplitTypeWords(line: string)
    requires IsTrimmed(line) && SplitTypeFromLine(line).Some?
    ensures var (typeName, remainder) := SplitTypeFromLine(line).value;
            && SplitWhitespace(line) == [typeName] + SplitWhitespace(remainder)
            && IsToken(typeName) && remainder != "" && IsTrimmed(remainder)
  {
    hide IsSpace, TrimStart;
    var i := FirstSpace(line);
    var rest := line[i..];
    assert line == line[..i] + rest;
    assert line[0] == line[..i][0];
    WordsOfSpacedToken(line[..i], rest);
    WordsOfTrim(rest);
    TrimStartSuffix(rest);
  }

  lemma OneWord(s: string)
    requires IsTrimmed(s) && |SplitWhitespace(s)| == 1
    ensures s == SplitWhitespace(s)[0] && FirstSpace(s) == |s|
  {
    hide IsSpace;
    var i := FirstSpace(s);
    if s != "" {
      assert SplitWhitespace(s) == [s[..i]] + SplitWhitespace(s[i..]);
      assert forall k | 0 <= k < |s| - i :: s[i..][k] == s[i + k];
      SpacesOnly(s[i..]);
      assert i == |s|;
      assert s[..i] == s;
    }
  }

  lemma CommentsStripped(raw: string)
    requires CanonicalLine(raw)
    ensures StripCommentsRespectingStringConstants(raw) == StripComments(raw)
  {
    hide IsStringConstantLine, TrimStart, CanonicalField, CanonicalConstant, SplitWhitespace, Trim;
    if '#' !in raw {
      IndexOfUnique(raw, '#', |raw|);
      assert raw[..|raw|] == raw;
    }
  }

  lemma NoEqualSign(s: string)
    requires '=' !in s
    ensures Replace(s, " = ", "=") == s
  {
    if Contains(s, " = ") { ContainedChar(s, " = ", 1); }
    ReplaceNothing(s, " = ", "=");
  }

  lemma FieldAgrees(line: string, o: Origin)
    requires IsTrimmed(line) && CanonicalField(SplitWhitespace(line)) && ParseField(line, o).Ok?
    ensures Says(CleanWords(SplitWhitespace(line)), Field(ParseField(line, o).value), o)
  {
    hide IsSpace, CanonicalType, IsBaseType, Contains, ParseType, Replace, SplitWhitespace, CleanWords, Join,
         CanonicalField;
    hide SplitTypeFromLine, IsTrimmed;
    var words := SplitWhitespace(line);
    SplitTypeWords(line);
    CanonicalFieldIsPair(words);
    var (typeName, remainder) := SplitTypeFromLine(line).value;
    assert words[1] == SplitWhitespace(remainder)[0];
    OneWord(remainder);
    assert remainder[..|remainder|] == remainder;
    TwoWords(words[0], words[1]);
    assert words == [words[0], words[1]];
  }

  lemma CanonicalFieldIsPair(words: seq<string>)
    requires CanonicalField(words)
    ensures |words| == 2 && '=' !in words[0] && '=' !in words[1]
  {
  }

  lemma TwoWords(first: string, second: string)
    requires IsToken(first) && IsToken(second)
    ensures SplitWhitespace(first + " " + second) == [first, second]
    ensures Join([first, second], " ") == first + " " + second
    ensures '=' !in first && '=' !in second ==> CleanWords([first, second]) == first + " " + second
  {
    assert IsSpace(' ');
    hide IsSpace;
    assert first + " " + second == first + (" " + second);
    WordsOfSpacedToken(first, " " + second);
    assert (" " + second)[1..] == second;
    TokenWords(second);
    if '=' !in first && '=' !in second {
      assert '=' !in first + " " + second;
      NoEqualSign(first + " " + second);
    }
  }

  lemma EqualSignAt(s: string, i: nat)
    requires OccursAt(s, " = ", i)
    ensures s[i] == ' ' && s[i + 1] == '=' && s[i + 2] == ' '
  {
    assert s[i..i + 3] == " = ";
    assert s[i..i + 3][0] == s[i] && s[i..i + 3][1] == s[i + 1] && s[i..i + 3][2] == s[i + 2];
  }

  // An equal sign between blanks after a text without one is in the rest.
  lemma EqualSignPosition(before: string, value: string, i: nat)
    requires before != "" && before[|before| - 1] != ' ' && '=' !in before
    requires OccursAt(before + "=" + value, " = ", i)
    ensures Contains(value, " = ")
  {
    var s := before + "=" + value;
    EqualSignAt(s, i);
    assert forall k | 0 <= k < |before| :: s[k] == before[k] && before[k] != '=';
    assert i > |before|;
    assert value[i - |before| - 1..i - |before| + 2] == s[i..i + 3];
    assert OccursAt(value, " = ", i - |before| - 1);
  }

  lemma EquationTight(before: string, value: string)
    requires before != "" && before[|before| - 1] != ' ' && '=' !in before && !Contains(value, " = ")
    ensures Replace(before + "=" + value, " = ", "=") == before + "=" + value
  {
    var s := before + "=" + value;
    if Contains(s, " = ") {
      var i :| 0 <= i <= |s| && OccursAt(s, " = ", i);
      EqualSignPosition(before, value, i);
    }
    ReplaceNothing(s, " = ", "=");
  }

  lemma EquationSpaced(before: string, value: string)
    requires '=' !in before && !Contains(value, " = ")
    ensures Replace(before + " = " + value, " = ", "=") == before + "=" + value
  {
    var s := before + " = " + value;
    forall j | 0 <= j < |before| ensures !OccursAt(s, " = ", j) {
      assert s[j + 1] == (before + " ")[j + 1] != '=';
      if OccursAt(s, " = ", j) { EqualSignAt(s, j); }
    }
    ReplaceFirst(before, " = ", value, "=");
    ReplaceNothing(value, " = ", "=");
  }

  // The words of the right-hand part of a constant line.
  lemma EquationWords(left: string, right: string)
    requires CanonicalEquation(left, right) && left != "" && !IsSpace(left[0])
    requires right != "" ==> !IsSpace(right[|right| - 1])
    ensures SplitWhitespace(left + "=" + right) != []
    ensures Join(SplitWhitespace(left + "=" + right), " ")
            == Trim(left) + (if SpaceLast(left) then " = " else "=") + Trim(right)
  {
    hide IsSpace, SplitWhitespace, Join, Trim, Contains, IsToken;
    var name := Trim(left);
    var after := TrimOfStarted(left);
    if after == "" {
      assert left == name;
      EquationWordsTight(name, right);
    } else {
      EquationWordsSpaced(name, after, right);
    }
  }

  lemma TrimOfStarted(s: string) returns (after: string)
    requires s != "" && !IsSpace(s[0])
    ensures s == Trim(s) + after && (forall c <- after :: IsSpace(c))
    ensures SpaceLast(s) <==> after != ""
  {
    hide IsSpace, TrimEnd;
    TrimEndPrefix(s);
    after := s[|Trim(s)|..];
    if after != "" {
      assert after[|after| - 1] in after && s[|s| - 1] == after[|after| - 1];
    }
  }

  lemma EquationWordsTight(name: string, right: string)
    requires IsToken(name) && !SpaceFirst(right)
    ensures SplitWhitespace(name + "=" + right) != []
    ensures Join(SplitWhitespace(name + "=" + right), " ") == name + "=" + Join(SplitWhitespace(right), " ")
  {
    assert !IsSpace('=');
    hide IsSpace, SplitWhitespace, Join;
    JoinGluedToken(name + "=", right);
    NonEmptyJoin(SplitWhitespace(name + "=" + right));
  }

  lemma EquationWordsSpaced(name: string, spaces: string, right: string)
    requires IsToken(name) && spaces != "" && (forall c <- spaces :: IsSpace(c))
    requires SpaceFirst(right) && !IsSpace(right[|right| - 1])
    ensures SplitWhitespace(name + spaces + "=" + right) != []
    ensures Join(SplitWhitespace(name + spaces + "=" + right), " ") == name + " = " + Join(SplitWhitespace(right), " ")
  {
    assert !IsSpace('=') && IsToken("=");
    hide IsSpace, SplitWhitespace, Join, IsToken;
    var rest := "=" + right;
    Regroup(name, spaces, "=", right);
    WordsOfSpacedToken("=", right);
    WordsAfterSpaces(spaces, rest);
    assert (spaces + rest)[0] == spaces[0] && spaces[0] in spaces;
    WordsOfSpacedToken(name, spaces + rest);
    assert SplitWhitespace(right) != [] by { if SplitWhitespace(right) == [] { SpacesOnly(right); } }
    JoinEquation(name, SplitWhitespace(right));
  }

  lemma NonEmptyJoin(words: seq<string>)
    ensures Join(words, " ") != "" ==> words != []
  {
  }

  lemma JoinEquation(name: string, words: seq<string>)
    requires words != []
    ensures Join([name] + (["="] + words), " ") == name + " = " + Join(words, " ")
  {
    var more := ["="] + words;
    assert more[1..] == words && ([name] + more)[1..] == more;
    var value := Join(words, " ");
    assert Join(more, " ") == "=" + " " + value;
    hide Join;
    assert name + " " + ("=" + " " + value) == name + " = " + value;
  }

  predicate IsWordChar(c: char) { 'a' <= c <= 'z' || '0' <= c <= '9' }

  lemma BaseTypeIsWord(t: string)
    requires IsBaseType(t)
    ensures t != "" && forall i | 0 <= i < |t| :: IsWordChar(t[i])
  {
  }

  lemma WordHasNoSigns(t: string)
    requires t != "" && forall i | 0 <= i < |t| :: IsWordChar(t[i])
    ensures '=' !in t && '[' !in t && ']' !in t && '/' !in t && IsToken(t) && t != "Header"
    ensures !StartsWith(t, "string<=")
  {
    assert "Header"[0] == 'H';
    assert "string<="[7] == '=';
  }

  lemma BaseTypeHasNoSigns(t: string)
    requires IsBaseType(t)
    ensures '=' !in t && '[' !in t && ']' !in t && '/' !in t && IsToken(t) && t != "Header"
    ensures !StartsWith(t, "string<=")
  {
    hide IsSpace, IsBaseType;
    BaseTypeIsWord(t);
    WordHasNoSigns(t);
  }

  lemma ParseBaseType(t: string, o: Origin)
    requires IsBaseType(t)
    ensures ParseType(t, o).Ok? && ParseType(t, o).value.fieldType == t
  {
    BaseTypeHasNoSigns(t);
    hide IsBaseType, IsIntrinsic;
    IndexOfUnique(t, '[', |t|);
    IndexOfUnique(t, ']', |t|);
    IndexOfUnique(t, '/', |t|);
  }

  lemma ConstantAgrees(line: string, o: Origin)
    requires IsTrimmed(line) && CanonicalConstant(line)
    ensures ParseConstantField(line, o).Ok? && '=' in SplitTypeFromLine(line).value.1
    ensures Says(CleanWords(SplitWhitespace(line)), Constant(ParseConstantField(line, o).value), o)
  {
    hide IsSpace, IsBaseType, Contains, ParseType, SplitWhitespace, Join, Trim, IsTrimmed, CanonicalEquation, Replace;
    SplitTypeWords(line);
    var (typeName, remainder) := SplitTypeFromLine(line).value;
    var equal := IndexOf(remainder, '=');
    var left, right := remainder[..equal], remainder[equal + 1..];
    assert remainder == left + "=" + right;
    ParseBaseType(typeName, o);
    BaseTypeHasNoSigns(typeName);
    RemainderAgrees(typeName, left, right);
    assert '=' in remainder by { assert remainder[equal] == '='; }
  }

  lemma RemainderAgrees(typeName: string, left: string, right: string)
    requires IsToken(typeName) && '=' !in typeName && '=' !in left
    requires CanonicalEquation(left, right) && IsTrimmed(left + "=" + right)
    ensures IsToken(Trim(left))
    ensures CleanWords([typeName] + SplitWhitespace(left + "=" + right))
            == typeName + " " + Trim(left) + "=" + Trim(right)
  {
    hide IsSpace, Contains, SplitWhitespace, Join, Trim, Replace;
    var remainder := left + "=" + right;
    var name := Trim(left);
    var before, after := TrimShape(left);
    assert left == before + name + after;
    assert remainder[0] == left[0];
    if right != "" { assert remainder[|remainder| - 1] == right[|right| - 1]; }
    assert '=' !in name by { assert left == before + name + after; }
    EquationWords(left, right);
    JoinAppend([typeName], SplitWhitespace(remainder), " ");
    JoinOfOne(typeName);
    assert name[|name| - 1] in name && IsSpace(' ') by { SpaceIsSpace(); }
    EquationTight(typeName + " " + name, Trim(right));
    EquationSpaced(typeName + " " + name, Trim(right));
    var sign := if SpaceLast(left) then " = " else "=";
    assert typeName + " " + (name + sign + Trim(right)) == typeName + " " + name + sign + Trim(right);
  }

  lemma SpaceIsSpace()
    ensures IsSpace(' ')
  {
  }

  // The parser and the cleaner read a canonical line in the same way.
  lemma LineAgrees(raw: string, o: Origin)
    requires CanonicalLine(raw) && ParseLine(raw, o).Ok?
    ensures Says(CleanLine(raw), ParseLine(raw, o).value, o)
  {
    hide IsSpace, Trim, SplitWhitespace, ParseField, ParseConstantField, CleanWords, CleanLine, SplitTypeFromLine;
    hide CanonicalField, CanonicalConstant, Says, IsStringConstantLine, TrimStart, Contains;
    var text := StripComments(raw);
    var line := Trim(text);
    CommentsStripped(raw);
    CleanLineWords(raw);
    TrimmedWords(text);
    var _, _ := TrimShape(text);
    var words := SplitWhitespace(line);
    if words == [] {
      BlankAgrees(line, o);
    } else if line == "" {
      NoWords();
    } else if CanonicalConstant(line) {
      ConstantAgrees(line, o);
    } else {
      CanonicalFieldIsPair(words);
      SplitTypeWords(line);
      LineIsField(line, o);
      FieldAgrees(line, o);
    }
  }

  lemma LineIsField(line: string, o: Origin)
    requires IsTrimmed(line) && line != "" && CanonicalField(SplitWhitespace(line)) && SplitTypeFromLine(line).Some?
    ensures '=' !in SplitTypeFromLine(line).value.1
  {
    hide IsSpace, SplitWhitespace, SplitTypeFromLine;
    CanonicalFieldIsPair(SplitWhitespace(line));
    SplitTypeWords(line);
    OneWord(SplitTypeFromLine(line).value.1);
  }

  lemma BlankAgrees(line: string, o: Origin)
    requires IsTrimmed(line) && SplitWhitespace(line) == []
    ensures line == "" && Says(CleanWords([]), Blank, o)
  {
    hide IsSpace;
    SpacesOnly(line);
    NothingLeft("");
  }
}
