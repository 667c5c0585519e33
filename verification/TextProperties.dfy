// Laws of the string operations that the md5 proofs rest on.
module TextProperties {
  import opened Wrappers
  import opened Text

  lemma Regroup(a: string, b: string, c: string, d: string)
    ensures a + b + c + d == a + (b + (c + d))
  {
  }

  /******* positions *******/

  lemma IndexOfUnique(s: string, c: char, i: nat)
    requires i <= |s| && c !in s[..i] && (i < |s| ==> s[i] == c)
    ensures IndexOf(s, c) == i
  {
    var j := IndexOf(s, c);
    assert forall k | 0 <= k < i :: s[..i][k] == s[k] != c;
    assert forall k | 0 <= k < j :: s[..j][k] == s[k] != c;
  }

  lemma IndexOfAppend(a: string, b: string, c: char)
    requires c !in a
    ensures IndexOf(a + b, c) == |a| + IndexOf(b, c)
  {
    var j := IndexOf(b, c);
    assert (a + b)[..|a| + j] == a + b[..j];
    IndexOfUnique(a + b, c, |a| + j);
  }

  lemma FirstSpaceUnique(s: string, i: nat)
    requires i <= |s| && NoSpaces(s[..i]) && (i < |s| ==> IsSpace(s[i]))
    ensures FirstSpace(s) == i
  {
    hide IsSpace;
    var j := FirstSpace(s);
    assert forall k | 0 <= k < i :: s[..i][k] == s[k] && !IsSpace(s[..i][k]);
    assert forall k | 0 <= k < j :: s[..j][k] == s[k] && !IsSpace(s[..j][k]);
  }

  lemma FirstSpaceAppend(a: string, b: string)
    requires NoSpaces(a) && (b == "" || IsSpace(b[0]))
    ensures FirstSpace(a + b) == |a|
  {
    hide IsSpace;
    assert (a + b)[..|a|] == a;
    FirstSpaceUnique(a + b, |a|);
  }

  lemma SplitOnFirst(a: string, c: char, b: string)
    requires c !in a
    ensures SplitOn(a + [c] + b, c) == [a] + SplitOn(b, c) && SplitOn(a, c) == [a]
  {
    var s := a + [c] + b;
    assert s == a + ([c] + b);
    IndexOfAppend(a, [c] + b, c);
    assert s[..|a|] == a && s[|a| + 1..] == b;
    IndexOfUnique(a, c, |a|);
  }

  /******* words *******/

  lemma WordsOfSpacedToken(token: string, rest: string)
    requires IsToken(token) && (rest == "" || IsSpace(rest[0]))
    ensures SplitWhitespace(token + rest) == [token] + SplitWhitespace(rest)
  {
    hide IsSpace, FirstSpace;
    var s := token + rest;
    FirstSpaceAppend(token, rest);
    assert s[0] == token[0] && token[0] in token;
    assert s[..|token|] == token && s[|token|..] == rest;
  }

  lemma TokenWords(token: string)
    requires IsToken(token)
    ensures SplitWhitespace(token) == [token]
  {
    WordsOfSpacedToken(token, "");
    assert token + "" == token;
  }

  lemma WordsAfterSpace(c: char, s: string)
    requires IsSpace(c)
    ensures SplitWhitespace([c] + s) == SplitWhitespace(s)
  {
    hide IsSpace;
    assert ([c] + s)[1..] == s;
  }

  lemma NoWords()
    ensures SplitWhitespace("") == []
  {
  }

  lemma {:induction false} WordsAppend(a: string, b: string)
    requires b == "" || IsSpace(b[0])
    ensures SplitWhitespace(a + b) == SplitWhitespace(a) + SplitWhitespace(b)
    decreases |a|
  {
    hide IsSpace, SplitWhitespace;
    if a == "" {
      NoWords();
      assert a + b == b && [] + SplitWhitespace(b) == SplitWhitespace(b);
    } else if IsSpace(a[0]) {
      var rest := a[1..];
      assert a == [a[0]] + rest && a + b == [a[0]] + (rest + b);
      WordsAfterSpace(a[0], rest);
      WordsAfterSpace(a[0], rest + b);
      WordsAppend(rest, b);
    } else {
      var i := FirstSpace(a);
      var token, rest := a[..i], a[i..];
      assert a == token + rest && a + b == token + (rest + b);
      hide FirstSpace;
      WordsOfSpacedToken(token, rest);
      assert rest + b == "" || IsSpace((rest + b)[0]);
      WordsOfSpacedToken(token, rest + b);
      WordsAppend(rest, b);
      assert [token] + (SplitWhitespace(rest) + SplitWhitespace(b))
             == [token] + SplitWhitespace(rest) + SplitWhitespace(b);
    }
  }

  lemma {:induction false} WordsOfTrim(s: string)
    ensures SplitWhitespace(TrimStart(s)) == SplitWhitespace(s)
    ensures SplitWhitespace(TrimEnd(s)) == SplitWhitespace(s)
  {
    hide IsSpace;
    if s != "" {
      if IsSpace(s[0]) { WordsOfTrim(s[1..]); }
      if IsSpace(s[|s| - 1]) {
        WordsOfTrim(s[..|s| - 1]);
        assert s == s[..|s| - 1] + [s[|s| - 1]];
        WordsAppend(s[..|s| - 1], [s[|s| - 1]]);
      }
    }
  }

  lemma TrimmedWords(s: string)
    ensures SplitWhitespace(Trim(s)) == SplitWhitespace(s)
  {
    hide IsSpace;
    WordsOfTrim(s);
    WordsOfTrim(TrimStart(s));
  }

  /******* trimming *******/

  lemma {:induction false} TrimStartSuffix(s: string)
    ensures |TrimStart(s)| <= |s| && TrimStart(s) == s[|s| - |TrimStart(s)|..]
    ensures TrimStart(s) != "" ==> !IsSpace(TrimStart(s)[0])
    ensures forall c <- s[..|s| - |TrimStart(s)|] :: IsSpace(c)
  {
    hide IsSpace;
    if s != "" && IsSpace(s[0]) {
      TrimStartSuffix(s[1..]);
      var n := |s| - |TrimStart(s)|;
      assert s[..n] == [s[0]] + s[1..][..n - 1];
    }
  }

  lemma {:induction false} TrimEndPrefix(s: string)
    ensures |TrimEnd(s)| <= |s| && TrimEnd(s) == s[..|TrimEnd(s)|]
    ensures TrimEnd(s) != "" ==> !IsSpace(TrimEnd(s)[|TrimEnd(s)| - 1])
    ensures forall c <- s[|TrimEnd(s)|..] :: IsSpace(c)
  {
    hide IsSpace;
    if s != "" && IsSpace(s[|s| - 1]) {
      var front := s[..|s| - 1];
      TrimEndPrefix(front);
      assert s[|TrimEnd(s)|..] == front[|TrimEnd(s)|..] + [s[|s| - 1]];
    }
  }

  // What trimming leaves, and what it takes away.
  lemma TrimShape(s: string) returns (before: string, after: string)
    ensures s == before + Trim(s) + after
    ensures IsTrimmed(Trim(s))
    ensures forall c <- before :: IsSpace(c)
    ensures forall c <- after :: IsSpace(c)
  {
    hide IsSpace, TrimStart, TrimEnd;
    var t := TrimStart(s);
    TrimStartSuffix(s);
    TrimEndPrefix(t);
    before, after := s[..|s| - |t|], t[|TrimEnd(t)|..];
    assert s == before + t && t == TrimEnd(t) + after;
    if Trim(s) != "" { assert t[0] == Trim(s)[0]; }
  }

  lemma {:induction false} TrimEndOfSpaces(s: string, spaces: string)
    requires forall c <- spaces :: IsSpace(c)
    ensures TrimEnd(s + spaces) == TrimEnd(s)
  {
    hide IsSpace;
    if spaces == "" {
      assert s + spaces == s;
    } else {
      var front := spaces[..|spaces| - 1];
      assert (s + spaces)[..|s + spaces| - 1] == s + front;
      assert spaces[|spaces| - 1] in spaces;
      assert forall c <- front :: c in spaces;
      TrimEndOfSpaces(s, front);
    }
  }

  lemma {:induction false} TrimStartOfSpaces(spaces: string, s: string)
    requires forall c <- spaces :: IsSpace(c)
    ensures TrimStart(spaces + s) == TrimStart(s)
  {
    hide IsSpace;
    if spaces == "" {
      assert spaces + s == s;
    } else {
      assert (spaces + s)[1..] == spaces[1..] + s;
      assert spaces[0] in spaces;
      assert forall c <- spaces[1..] :: c in spaces;
      TrimStartOfSpaces(spaces[1..], s);
    }
  }

  lemma TrimOfTrimmed(s: string)
    requires IsTrimmed(s)
    ensures Trim(s) == s && TrimStart(s) == s && TrimEnd(s) == s
  {
    hide IsSpace;
  }

  lemma TrimBetweenSpaces(before: string, s: string, after: string)
    requires IsTrimmed(s) && (forall c <- before :: IsSpace(c)) && forall c <- after :: IsSpace(c)
    ensures Trim(before + s + after) == s
  {
    hide IsSpace;
    assert before + s + after == before + (s + after);
    TrimStartOfSpaces(before, s + after);
    if s == "" {
      assert s + after == after && after + "" == after;
      TrimStartOfSpaces(after, "");
    } else {
      assert (s + after)[0] == s[0];
      TrimEndOfSpaces(s, after);
    }
  }

  /******* joining *******/

  lemma {:induction false} JoinAppend(a: seq<string>, b: seq<string>, sep: string)
    requires a != [] && b != []
    ensures Join(a + b, sep) == Join(a, sep) + sep + Join(b, sep)
  {
    assert (a + b)[1..] == a[1..] + b;
    if |a| > 1 {
      JoinAppend(a[1..], b, sep);
      assert a[0] + sep + (Join(a[1..], sep) + sep + Join(b, sep))
          == a[0] + sep + Join(a[1..], sep) + sep + Join(b, sep);
    }
  }

  lemma JoinOfOne(word: string)
    ensures Join([word], " ") == word && Join(SplitWhitespace(""), " ") == ""
  {
  }

  lemma JoinGluedWord(token: string, word: string, more: seq<string>)
    ensures Join([token + word] + more, " ") == token + Join([word] + more, " ")
  {
    if more != [] {
      JoinAppend([word], more, " ");
      JoinAppend([token + word], more, " ");
      assert token + word + " " + Join(more, " ") == token + (word + " " + Join(more, " "));
    } else {
      assert [word] + more == [word] && [token + word] + more == [token + word];
    }
  }

  // A token glued to the front of a line becomes the front of its first word.
  lemma JoinGluedToken(token: string, rest: string)
    requires IsToken(token) && (rest == "" || !IsSpace(rest[0]))
    ensures Join(SplitWhitespace(token + rest), " ") == token + Join(SplitWhitespace(rest), " ")
  {
    hide IsSpace, SplitWhitespace, Join;
    if rest == "" {
      assert token + rest == token && token + "" == token;
      TokenWords(token);
      JoinOfOne(token);
    } else {
      var i := FirstSpace(rest);
      var word, tail := rest[..i], rest[i..];
      assert rest == word + tail && token + rest == (token + word) + tail;
      WordsOfSpacedToken(word, tail);
      WordsOfSpacedToken(token + word, tail);
      JoinGluedWord(token, word, SplitWhitespace(tail));
    }
  }

  /******* searching *******/

  lemma ReplaceNothing(s: string, pat: string, replacement: string)
    requires pat != "" && !Contains(s, pat)
    ensures Replace(s, pat, replacement) == s
    ensures SplitStr(s, pat) == [s]
  {
    assert Find(s, pat, 0).Some? ==> Contains(s, pat);
  }

  lemma FindUnique(s: string, pat: string, i: nat)
    requires OccursAt(s, pat, i) && forall j | 0 <= j < i :: !OccursAt(s, pat, j)
    ensures Find(s, pat, 0) == Some(i)
  {
    var r := Find(s, pat, 0);
    assert r.Some?;
  }

  lemma ReplaceFirst(before: string, pat: string, after: string, replacement: string)
    requires pat != ""
    requires forall j | 0 <= j < |before| :: !OccursAt(before + pat + after, pat, j)
    ensures Replace(before + pat + after, pat, replacement) == before + replacement + Replace(after, pat, replacement)
    ensures SplitStr(before + pat + after, pat) == [before] + SplitStr(after, pat)
  {
    var s := before + pat + after;
    assert s[|before|..|before| + |pat|] == pat;
    assert OccursAt(s, pat, |before|);
    FindUnique(s, pat, |before|);
    assert s[..|before|] == before && s[|before| + |pat|..] == after;
  }

  lemma ContainedChar(s: string, pat: string, k: nat)
    requires Contains(s, pat) && k < |pat|
    ensures pat[k] in s
  {
    var i :| 0 <= i <= |s| && OccursAt(s, pat, i);
    assert s[i..i + |pat|][k] == s[i + k];
  }

  lemma ContainedInPart(before: string, s: string, after: string, pat: string)
    requires Contains(s, pat)
    ensures Contains(before + s + after, pat)
  {
    var i :| 0 <= i <= |s| && OccursAt(s, pat, i);
    var whole := before + s + after;
    assert whole[|before| + i..|before| + i + |pat|] == s[i..i + |pat|];
    assert OccursAt(whole, pat, |before| + i);
  }

  /******* lines *******/

  lemma LinesOfLine(line: string, rest: string)
    requires '\n' !in line
    ensures Lines(line + "\n" + rest) == [DropCarriageReturn(line)] + Lines(rest)
  {
    var s := line + "\n" + rest;
    assert s == line + ("\n" + rest);
    IndexOfAppend(line, "\n" + rest, '\n');
    assert s[..|line|] == line && s[|line| + 1..] == rest;
  }

  lemma LinesOfLastLine(line: string)
    requires '\n' !in line && line != ""
    ensures Lines(line) == [line]
  {
    IndexOfAppend(line, "", '\n');
    assert line + "" == line;
  }

  ghost predicate PlainLine(line: string) {
    line != "" && '\n' !in line && !IsSpace(line[|line| - 1])
  }

  lemma {:induction false} LinesOfJoin(lines: seq<string>)
    requires forall line <- lines :: PlainLine(line)
    ensures Lines(Join(lines, "\n")) == lines
  {
    if lines != [] {
      var line := lines[0];
      assert line in lines;
      assert DropCarriageReturn(line) == line;
      if |lines| == 1 {
        LinesOfLastLine(line);
      } else {
        assert forall l <- lines[1..] :: l in lines;
        LinesOfJoin(lines[1..]);
        LinesOfLine(line, Join(lines[1..], "\n"));
      }
    }
  }
}
