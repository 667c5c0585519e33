// What cleaning a message definition does (`clean_msg` in roslibrust_common/src/md5sum.rs):
// it is a projection onto texts without comments, blank lines and superfluous whitespace,
// in which all constants come first.
module Cleaning {
  import opened Text
  import opened TextProperties
  import opened DefinitionMd5

  /******* the words of a line decide how it is cleaned *******/

  function Words(raw: string): seq<string> { SplitWhitespace(raw[..IndexOf(raw, '#')]) }

  function CleanWords(words: seq<string>): string { Replace(Join(words, " "), " = ", "=") }

  lemma {:induction false} WordsAfterSpaces(spaces: string, s: string)
    requires forall c <- spaces :: IsSpace(c)
    ensures SplitWhitespace(spaces + s) == SplitWhitespace(s)
  {
    hide IsSpace;
    if spaces == "" {
      assert spaces + s == s;
    } else {
      assert spaces[0] in spaces && (spaces + s)[1..] == spaces[1..] + s;
      assert forall c <- spaces[1..] :: c in spaces;
      WordsAfterSpaces(spaces[1..], s);
    }
  }

  lemma CleanLineWords(raw: string)
    ensures CleanLine(raw) == CleanWords(Words(raw))
  {
    hide SplitWhitespace, Join, Replace, Trim;
    assert !IsSpace('#');
    hide IsSpace;
    var line := Trim(raw);
    var before, after := TrimShape(raw);
    var text := line[..IndexOf(line, '#')];
    TrimmedWords(text);
    assert raw == before + (line + after);
    IndexOfAppend(before, line + after, '#');
    if '#' in line {
      IndexOfUnique(line + after, '#', |text|);
      assert raw[..IndexOf(raw, '#')] == before + text;
      WordsAfterSpaces(before, text);
      if StartsWith(line, "#") {
        NothingLeft(text);
      }
    } else {
      IndexOfUnique(line, '#', |line|);
      assert text == line;
      IndexOfUnique(raw, '#', |raw|);
      assert raw[..|raw|] == raw;
      TrimmedWords(raw);
    }
  }

  lemma NothingLeft(text: string)
    requires text == ""
    ensures CleanWords(SplitWhitespace(text)) == ""
  {
  }

  lemma SpaceBeforeLine(c: char, s: string)
    requires IsSpace(c)
    ensures CleanLine([c] + s) == CleanLine(s)
  {
    assert c != '#';
    hide IsSpace, CleanLine;
    CleanLineWords([c] + s);
    CleanLineWords(s);
    IndexOfAppend([c], s, '#');
    var i := IndexOf(s, '#');
    assert ([c] + s)[..1 + i] == [c] + s[..i];
    assert ([c] + s[..i])[1..] == s[..i];
  }

  lemma SpaceAfterLine(s: string, c: char)
    requires IsSpace(c)
    ensures CleanLine(s + [c]) == CleanLine(s)
  {
    assert c != '#';
    hide IsSpace, CleanLine;
    CleanLineWords(s + [c]);
    CleanLineWords(s);
    var i := IndexOf(s, '#');
    if i < |s| {
      IndexOfUnique(s + [c], '#', i);
      assert (s + [c])[..i] == s[..i];
    } else {
      IndexOfAppend(s, [c], '#');
      assert (s + [c])[..|s| + 1] == s + [c] && s[..i] == s;
      WordsAppend(s, [c]);
      assert [c][1..] == "";
      assert SplitWhitespace([c]) == [];
      assert SplitWhitespace(s) + [] == SplitWhitespace(s);
    }
  }

  /******* cleaned lines *******/

  // Words separated by single blanks.
  ghost predicate SingleSpaced(s: string) {
    && s != "" && !IsSpace(s[0]) && !IsSpace(s[|s| - 1])
    && forall i | 0 <= i < |s| - 1 && IsSpace(s[i]) :: s[i] == ' ' && !IsSpace(s[i + 1])
  }

  ghost predicate IsCleanLine(line: string) {
    SingleSpaced(line) && '#' !in line && !Contains(line, " = ")
  }

  lemma SingleSpacedTail(s: string, i: nat)
    requires SingleSpaced(s) && i < |s| && !IsSpace(s[i])
    ensures SingleSpaced(s[i..])
  {
    hide IsSpace;
    var t := s[i..];
    forall j | 0 <= j < |t| - 1 && IsSpace(t[j]) ensures t[j] == ' ' && !IsSpace(t[j + 1]) {
      assert t[j] == s[i + j] && t[j + 1] == s[i + j + 1];
    }
  }

  lemma SingleSpacedConcat(a: string, b: string)
    requires SingleSpaced(a) && SingleSpaced(b)
    ensures SingleSpaced(a + b) && SingleSpaced(a + " " + b)
  {
    assert IsSpace(' ');
    hide IsSpace;
    var s := a + " " + b;
    forall i | 0 <= i < |s| - 1 && IsSpace(s[i]) ensures s[i] == ' ' && !IsSpace(s[i + 1]) {
      if i < |a| - 1 {
        assert s[i] == a[i] && s[i + 1] == a[i + 1];
      } else if i > |a| {
        assert s[i] == b[i - |a| - 1] && s[i + 1] == b[i - |a|];
      }
    }
  }

  lemma TokenIsSingleSpaced(token: string)
    requires IsToken(token)
    ensures SingleSpaced(token)
  {
    hide IsSpace;
    assert forall i | 0 <= i < |token| :: token[i] in token;
  }

  lemma {:induction false} JoinSingleSpaced(words: seq<string>)
    requires words != [] && forall word <- words :: IsToken(word)
    ensures SingleSpaced(Join(words, " "))
  {
    hide IsToken, SingleSpaced;
    assert words[0] in words;
    TokenIsSingleSpaced(words[0]);
    if |words| > 1 {
      assert forall word <- words[1..] :: word in words;
      JoinSingleSpaced(words[1..]);
      SingleSpacedConcat(words[0], Join(words[1..], " "));
    }
  }

  lemma {:induction false} WordsOfSingleSpaced(s: string)
    requires SingleSpaced(s)
    ensures Join(SplitWhitespace(s), " ") == s
    decreases |s|
  {
    hide IsSpace;
    var i := FirstSpace(s);
    if i == |s| {
      assert s[..i] == s && s[i..] == "";
      assert SplitWhitespace(s) == [s];
    } else {
      var rest := s[i + 1..];
      assert s == s[..i] + " " + rest;
      assert s[i..][1..] == rest;
      SingleSpacedTail(s, i + 1);
      WordsOfSingleSpaced(rest);
      assert SplitWhitespace(rest) != [];
      JoinAppend([s[..i]], SplitWhitespace(rest), " ");
    }
  }

  // Taking the blanks around equal signs away leaves none of them, and makes no double blanks.
  lemma {:induction false} TightenEquals(s: string)
    requires SingleSpaced(s)
    ensures SingleSpaced(Replace(s, " = ", "=")) && !Contains(Replace(s, " = ", "="), " = ")
    decreases |s|
  {
    hide IsSpace, SingleSpaced, Find;
    var found := Find(s, " = ", 0);
    if found.None? {
      assert !Contains(s, " = ");
    } else {
      var i := found.value;
      assert s[i..i + 3] == " = ";
      assert s[i] == ' ' && s[i + 1] == '=' && s[i + 2] == ' ';
      TightenAround(s, i);
      TightenEquals(s[i + 3..]);
      assert Replace(s, " = ", "=") == s[..i] + "=" + Replace(s[i + 3..], " = ", "=");
      hide Replace;
      TightPieces(s[..i], Replace(s[i + 3..], " = ", "="), s);
    }
  }

  lemma TightenAround(s: string, i: nat)
    requires SingleSpaced(s) && i + 3 <= |s| && s[i] == ' ' && s[i + 1] == '=' && s[i + 2] == ' '
    ensures i > 0 && i + 3 < |s| && SingleSpaced(s[..i]) && SingleSpaced(s[i + 3..])
  {
    assert IsSpace(' ') && !IsSpace('=');
    hide IsSpace;
    assert i + 2 < |s| - 1;
    assert !IsSpace(s[i - 1]);
    SingleSpacedTail(s, i + 3);
  }

  lemma OccursInPieces(a: string, b: string, j: nat)
    requires SingleSpaced(a) && SingleSpaced(b) && OccursAt(a + "=" + b, " = ", j)
    ensures OccursAt(a, " = ", j) || (j > |a| && OccursAt(b, " = ", j - |a| - 1))
  {
    assert IsSpace(' ');
    hide IsSpace;
    var r := a + "=" + b;
    assert r[j..j + 3] == " = ";
    assert r[j] == ' ' && r[j + 1] == '=' && r[j + 2] == ' ';
    if j > |a| {
      assert b[j - |a| - 1..j - |a| + 2] == r[j..j + 3];
    } else {
      assert a[j..j + 3] == r[j..j + 3];
    }
  }

  lemma TightPieces(a: string, b: string, s: string)
    requires SingleSpaced(a) && SingleSpaced(b) && a <= s
    requires forall j | 0 <= j < |a| :: !OccursAt(s, " = ", j)
    requires !Contains(b, " = ")
    ensures SingleSpaced(a + "=" + b) && !Contains(a + "=" + b, " = ")
  {
    TokenIsSingleSpaced("=");
    SingleSpacedConcat(a, "=");
    SingleSpacedConcat(a + "=", b);
    hide IsSpace, SingleSpaced;
    var r := a + "=" + b;
    assert forall j | OccursAt(a, " = ", j) :: s[j..j + 3] == a[j..j + 3] && OccursAt(s, " = ", j);
    if Contains(r, " = ") {
      var j :| 0 <= j <= |r| && OccursAt(r, " = ", j);
      OccursInPieces(a, b, j);
    }
  }

  lemma {:induction false} ReplaceLacks(s: string, pat: string, replacement: string, c: char)
    requires pat != "" && c !in s && c !in replacement
    ensures c !in Replace(s, pat, replacement)
    decreases |s|
  {
    hide OccursAt, Find;
    var found := Find(s, pat, 0);
    if found.Some? {
      assert found.value + |pat| <= |s| by { FoundWithin(s, pat); }
      var before, rest := s[..found.value], s[found.value + |pat|..];
      assert c !in before && c !in rest;
      ReplaceLacks(rest, pat, replacement, c);
      assert Replace(s, pat, replacement) == before + replacement + Replace(rest, pat, replacement);
    }
  }

  lemma FoundWithin(s: string, pat: string)
    ensures Find(s, pat, 0).Some? ==> Find(s, pat, 0).value + |pat| <= |s|
  {
  }

  lemma {:induction false} WordsLack(s: string, c: char)
    requires c !in s
    ensures forall word <- SplitWhitespace(s) :: c !in word
    decreases |s|
  {
    hide IsSpace;
    if s != "" {
      if IsSpace(s[0]) { WordsLack(s[1..], c); } else { WordsLack(s[FirstSpace(s)..], c); }
    }
  }

  lemma {:induction false} JoinLacks(words: seq<string>, sep: string, c: char)
    requires c !in sep && forall word <- words :: c !in word
    ensures c !in Join(words, sep)
  {
    if words != [] {
      assert words[0] in words && forall word <- words[1..] :: word in words;
      JoinLacks(words[1..], sep, c);
    }
  }

  lemma CleanLineIsClean(raw: string)
    ensures CleanLine(raw) != "" ==> IsCleanLine(CleanLine(raw))
  {
    hide CleanLine, SplitWhitespace, Replace, Join, SingleSpaced, IsSpace;
    CleanLineWords(raw);
    var text := raw[..IndexOf(raw, '#')];
    var words := SplitWhitespace(text);
    if words == [] {
      assert Replace(Join([], " "), " = ", "=") == "" by { NothingLeft(""); NoWords(); }
    } else {
      JoinSingleSpaced(words);
      TightenEquals(Join(words, " "));
      WordsLack(text, '#');
      JoinLacks(words, " ", '#');
      ReplaceLacks(Join(words, " "), " = ", "=", '#');
    }
  }

  lemma CleanLineKeepsClean(line: string)
    requires IsCleanLine(line)
    ensures CleanLine(line) == line
  {
    hide CleanLine, SplitWhitespace, Replace, Join, SingleSpaced, IsSpace;
    CleanLineWords(line);
    IndexOfUnique(line, '#', |line|);
    assert line[..|line|] == line;
    WordsOfSingleSpaced(line);
    ReplaceNothing(line, " = ", "=");
  }

  /******* the cleaned text *******/

  ghost predicate AllClean(lines: seq<string>) { forall line <- lines :: IsCleanLine(line) }

  lemma {:induction false} CleanedLinesAreClean(lines: seq<string>)
    ensures AllClean(CleanConstants(lines)) && forall line <- CleanConstants(lines) :: '=' in line
    ensures AllClean(CleanParams(lines)) && forall line <- CleanParams(lines) :: '=' !in line
  {
    hide CleanLine, IsCleanLine;
    if lines != [] {
      CleanLineIsClean(lines[0]);
      CleanedLinesAreClean(lines[1..]);
    }
  }

  lemma CleanLineIsPlain(line: string)
    requires IsCleanLine(line)
    ensures PlainLine(line) && IsTrimmed(line)
  {
    assert IsSpace('\n');
    hide IsSpace;
    assert forall i | 0 <= i < |line| - 1 :: IsSpace(line[i]) ==> line[i] == ' ';
  }

  lemma {:induction false} JoinedCleanLines(lines: seq<string>)
    requires AllClean(lines) && lines != []
    ensures Join(lines, "\n") != "" && IsTrimmed(Join(lines, "\n"))
  {
    hide IsSpace, IsCleanLine, Contains;
    assert lines[0] in lines;
    CleanLineIsPlain(lines[0]);
    if |lines| > 1 {
      assert forall line <- lines[1..] :: line in lines;
      JoinedCleanLines(lines[1..]);
      var rest := Join(lines[1..], "\n");
      var all := lines[0] + "\n" + rest;
      assert all[0] == lines[0][0] && all[|all| - 1] == rest[|rest| - 1];
    }
  }

  lemma AssembleJoins(constants: seq<string>, params: seq<string>)
    requires AllClean(constants) && AllClean(params)
    ensures Assemble(constants, params) == Join(constants + params, "\n")
  {
    assert IsSpace('\n');
    hide IsSpace, IsCleanLine, Trim, Contains;
    var all := Join(constants + params, "\n");
    if constants + params != [] {
      JoinedCleanLines(constants + params);
    }
    if constants == [] {
      assert constants + params == params;
      assert Join(constants, "\n") + "\n" + Join(params, "\n") == "\n" + all + "";
      TrimBetweenSpaces("\n", all, "");
    } else if params == [] {
      assert constants + params == constants;
      assert Join(constants, "\n") + "\n" + Join(params, "\n") == "" + all + "\n";
      TrimBetweenSpaces("", all, "\n");
    } else {
      JoinAppend(constants, params, "\n");
      assert Join(constants, "\n") + "\n" + Join(params, "\n") == "" + all + "";
      TrimBetweenSpaces("", all, "");
    }
  }

  // The cleaned text consists of the cleaned constant lines, in their order, followed by the
  // cleaned field lines, in their order.
  lemma LinesOfClean(msg: string)
    ensures Lines(Clean(msg)) == CleanConstants(Lines(msg)) + CleanParams(Lines(msg))
    ensures AllClean(Lines(Clean(msg)))
  {
    hide CleanConstants, CleanParams, IsCleanLine;
    var constants, params := CleanConstants(Lines(msg)), CleanParams(Lines(msg));
    CleanedLinesAreClean(Lines(msg));
    AssembleJoins(constants, params);
    forall line <- constants + params ensures PlainLine(line) { CleanLineIsPlain(line); }
    LinesOfJoin(constants + params);
  }

  lemma {:induction false} CleaningCleanLines(constants: seq<string>, params: seq<string>)
    requires AllClean(constants) && forall line <- constants :: '=' in line
    requires AllClean(params) && forall line <- params :: '=' !in line
    ensures CleanConstants(constants + params) == constants
    ensures CleanParams(constants + params) == params
    decreases |constants| + |params|
  {
    hide CleanLine, IsCleanLine;
    var all := constants + params;
    if all != [] {
      CleanLineKeepsClean(all[0]);
      assert all[0] != "" by { CleanLineIsPlain(all[0]); }
      if constants != [] {
        assert constants[0] in constants && all[1..] == constants[1..] + params;
        CleaningCleanLines(constants[1..], params);
      } else {
        assert params[0] in params && all[1..] == [] + params[1..];
        CleaningCleanLines([], params[1..]);
      }
    }
  }

  // Cleaning a cleaned text changes nothing.
  lemma CleanIdempotent(msg: string)
    ensures Clean(Clean(msg)) == Clean(msg)
  {
    hide CleanConstants, CleanParams, IsCleanLine, Lines;
    LinesOfClean(msg);
    CleanedLinesAreClean(Lines(msg));
    CleaningCleanLines(CleanConstants(Lines(msg)), CleanParams(Lines(msg)));
  }

  lemma CleanEmptyIff(msg: string)
    ensures Clean(msg) == "" <==> CleanConstants(Lines(msg)) + CleanParams(Lines(msg)) == []
  {
    hide CleanConstants, CleanParams, IsCleanLine;
    var constants, params := CleanConstants(Lines(msg)), CleanParams(Lines(msg));
    CleanedLinesAreClean(Lines(msg));
    AssembleJoins(constants, params);
    if constants + params != [] { JoinedCleanLines(constants + params); }
  }

  /******* whitespace around the whole text does not matter *******/

  ghost predicate SameCleaning(s: string, t: string) {
    CleanConstants(Lines(s)) == CleanConstants(Lines(t)) && CleanParams(Lines(s)) == CleanParams(Lines(t))
  }

  lemma CleanLineOfNothing()
    ensures CleanLine("") == ""
  {
    CleanLineWords("");
  }

  lemma CleanLineOfDropped(s: string)
    ensures CleanLine(DropCarriageReturn(s)) == CleanLine(s)
  {
    assert IsSpace('\r');
    hide CleanLine, IsSpace;
    if s != "" && s[|s| - 1] == '\r' {
      assert s == s[..|s| - 1] + ['\r'];
      SpaceAfterLine(s[..|s| - 1], '\r');
    }
  }

  // The text of one line, with or without its end.
  lemma OneLine(s: string)
    requires '\n' !in s
    ensures CleanConstants(Lines(s)) == CleanConstants(Lines(s + "\n")) == ConstantLine(CleanLine(s))
    ensures CleanParams(Lines(s)) == CleanParams(Lines(s + "\n")) == ParamLine(CleanLine(s))
  {
    hide CleanLine;
    assert s + "\n" + "" == s + "\n";
    LinesOfLine(s, "");
    CleanLineOfDropped(s);
    CleanLineOfNothing();
    if s != "" { LinesOfLastLine(s); }
  }

  lemma FirstLine(line: string, rest: string)
    requires '\n' !in line
    ensures CleanConstants(Lines(line + "\n" + rest)) == ConstantLine(CleanLine(line)) + CleanConstants(Lines(rest))
    ensures CleanParams(Lines(line + "\n" + rest)) == ParamLine(CleanLine(line)) + CleanParams(Lines(rest))
  {
    hide CleanLine;
    LinesOfLine(line, rest);
    CleanLineOfDropped(line);
  }

  lemma SpaceBeforeText(c: char, s: string)
    requires IsSpace(c)
    ensures SameCleaning([c] + s, s)
  {
    hide CleanLine, CleanConstants, CleanParams, Lines, IsSpace;
    if c == '\n' {
      assert [c] + s == "" + "\n" + s;
      FirstLine("", s);
      CleanLineOfNothing();
    } else {
      var i := IndexOf(s, '\n');
      SpaceBeforeLine(c, s[..i]);
      assert ([c] + s)[..1 + i] == [c] + s[..i];
      if i < |s| {
        assert s == s[..i] + "\n" + s[i + 1..] && [c] + s == [c] + s[..i] + "\n" + s[i + 1..];
        FirstLine(s[..i], s[i + 1..]);
        FirstLine([c] + s[..i], s[i + 1..]);
      } else {
        assert s[..i] == s;
        OneLine(s);
        OneLine([c] + s);
      }
    }
  }

  lemma {:induction false} SpaceAfterText(s: string, c: char)
    requires IsSpace(c)
    ensures SameCleaning(s + [c], s)
    decreases |s|
  {
    hide CleanLine, CleanConstants, CleanParams, Lines, IsSpace;
    var i := IndexOf(s, '\n');
    if i < |s| {
      var rest := s[i + 1..];
      assert s == s[..i] + "\n" + rest && s + [c] == s[..i] + "\n" + (rest + [c]);
      FirstLine(s[..i], rest);
      FirstLine(s[..i], rest + [c]);
      SpaceAfterText(rest, c);
    } else {
      assert s[..i] == s;
      OneLine(s);
      if c != '\n' {
        OneLine(s + [c]);
        SpaceAfterLine(s, c);
      }
    }
  }

  lemma {:induction false} SpacesAroundText(before: string, s: string, after: string)
    requires (forall c <- before :: IsSpace(c)) && forall c <- after :: IsSpace(c)
    ensures SameCleaning(before + s + after, s)
    decreases |before| + |after|
  {
    hide CleanConstants, CleanParams, Lines, IsSpace;
    var text := before + s + after;
    if before != "" {
      assert before[0] in before && forall c <- before[1..] :: c in before;
      assert text == [before[0]] + (before[1..] + s + after);
      SpaceBeforeText(before[0], before[1..] + s + after);
      SpacesAroundText(before[1..], s, after);
    } else if after != "" {
      var n := |after| - 1;
      assert after[n] in after && forall c <- after[..n] :: c in after;
      assert text == (before + s + after[..n]) + [after[n]];
      SpaceAfterText(before + s + after[..n], after[n]);
      SpacesAroundText(before, s, after[..n]);
    } else {
      assert text == s;
    }
  }

  lemma SameCleaningSameText(s: string, t: string)
    requires SameCleaning(s, t)
    ensures Clean(s) == Clean(t)
  {
  }

  lemma EndOfTextDoesNotMatter(s: string)
    ensures SameCleaning(s + "\n", s)
  {
    assert IsSpace('\n');
    hide IsSpace, SameCleaning;
    SpaceAfterText(s, '\n');
  }

  lemma TrimmingDoesNotMatter(s: string)
    ensures SameCleaning(s, Trim(s))
  {
    hide IsSpace, Trim, IsTrimmed, SameCleaning;
    var before, after := TrimShape(s);
    SpacesAroundText(before, Trim(s), after);
  }

  // Trimming the text, with or without ending the last line, does not change what cleaning gives.
  lemma CleanOfTrimmed(s: string)
    ensures Clean(Trim(s)) == Clean(s) && Clean(Trim(s) + "\n") == Clean(s)
  {
    hide Trim, SameCleaning, Clean;
    TrimmingDoesNotMatter(s);
    EndOfTextDoesNotMatter(Trim(s));
    SameCleaningSameText(s, Trim(s));
    SameCleaningSameText(Trim(s) + "\n", Trim(s));
  }
}
