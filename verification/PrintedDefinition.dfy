// Code generation hashes the parsed structure of a message; the connection header of a topic
// carries the expanded text of the message, which is hashed again on the other side. For
// canonical ROS1 messages both give the same md5 sum, with one exception that is stated
// exactly (see `PrintedTextHashesLikeStructure`).
module PrintedDefinition {
  import opened Wrappers
  import opened StringOrder
  import opened Text
  import opened TextProperties
  import opened Messages
  import opened Libraries
  import opened MessageParser
  import opened MessageGraph
  import opened GraphProperties
  import opened DefinitionMd5
  import opened Cleaning
  import opened CanonicalLines
  import opened HashAgreement

  /******* the referenced types in the order in which they are printed *******/

  ghost function References(k: string, g: Graph): seq<string>
    requires Acyclic(LibraryOf(g)) && k in g
  {
    var types := ReferencedTypes(g[k].parsed, LibraryOf(g));
    if types.Some? then Sorted(types.value) else []
  }

  lemma {:induction false} UniqueTypesClosed(version: RosVersion, fields: seq<FieldInfo>, lib: Library, key: string)
    requires Acyclic(lib) && UniqueTypes(version, fields, lib).Some? && key in UniqueTypes(version, fields, lib).value
    ensures ReferencedTypes(lib[key], lib).Some?
    ensures ReferencedTypes(lib[key], lib).value <= UniqueTypes(version, fields, lib).value
    decreases Level(fields, lib), |fields|
  {
    hide Acyclic, IsIntrinsic, FullTypeName;
    var first := FullTypeName(fields[0]);
    if !IsIntrinsic(version, fields[0].fieldType.fieldType) {
      LevelOfEntry(first, lib);
      if key == first {
        return;
      }
      if key in UniqueTypes(VersionOf(lib[first]), lib[first].fields, lib).value {
        UniqueTypesClosed(VersionOf(lib[first]), lib[first].fields, lib, key);
        return;
      }
    }
    UniqueTypesClosed(version, fields[1..], lib, key);
  }

  // A referenced type is an entry of lower rank, and what it refers to is referenced too.
  lemma ReferenceIsBelow(k: string, d: string, g: Graph)
    requires Acyclic(LibraryOf(g)) && k in g && d in References(k, g)
    ensures d in g && Rank(d, LibraryOf(g)) < Rank(k, LibraryOf(g))
    ensures forall e <- References(d, g) :: e in References(k, g)
  {
    hide Acyclic, UniqueTypes;
    var lib := LibraryOf(g);
    UniqueTypesBelow(VersionOf(lib[k]), lib[k].fields, lib, d);
    UniqueTypesClosed(VersionOf(lib[k]), lib[k].fields, lib, d);
    LevelOfEntry(k, lib);
  }

  /******* canonical entries *******/

  // The message and everything it refers to are canonical.
  ghost predicate CanonicalEntry(k: string, g: Graph)
    requires Acyclic(LibraryOf(g))
  {
    && k in g && Canonical(g[k].parsed)
    && forall d <- References(k, g) :: d in g && Canonical(g[d].parsed)
  }

  lemma ReferenceIsCanonical(k: string, d: string, g: Graph)
    requires Acyclic(LibraryOf(g)) && CanonicalEntry(k, g) && d in References(k, g)
    ensures CanonicalEntry(d, g)
  {
    hide Acyclic, Canonical, References;
    ReferenceIsBelow(k, d, g);
  }

  // A file without any text except whitespace.
  predicate Blank(k: string, g: Graph)
    requires k in g
  {
    Trim(g[k].parsed.source) == ""
  }

  lemma BlankIsEmpty(k: string, g: Graph)
    requires Acyclic(LibraryOf(g)) && CanonicalEntry(k, g) && Blank(k, g)
    ensures References(k, g) == []
    ensures g[k].parsed.fields == [] && g[k].parsed.constants == []
    ensures Clean(g[k].parsed.source) == Clean("") == ""
  {
    hide Acyclic, Canonical;
    CleanOfTrimmed(g[k].parsed.source);
    assert Lines("") == [];
    CleanEmptyIff("");
    var _ := CleanedSource(g[k].parsed);
  }

  // The type of the section that is printed last.
  ghost function LastSection(k: string, g: Graph): (last: string)
    requires Acyclic(LibraryOf(g)) && k in g && References(k, g) != []
    ensures last in References(k, g) && last in g
    decreases Rank(k, LibraryOf(g))
  {
    var refs := References(k, g);
    var d := refs[|refs| - 1];
    ReferenceIsBelow(k, d, g);
    if References(d, g) == [] then d else LastSection(d, g)
  }

  // The text ends with the header of a blank message that is a reference of a reference.
  ghost predicate EndsInBareHeader(k: string, g: Graph)
    requires Acyclic(LibraryOf(g)) && k in g
  {
    var refs := References(k, g);
    refs != [] &&
    var d := refs[|refs| - 1];
    d in g && References(d, g) != [] && Blank(LastSection(d, g), g)
  }

  /******* the sections of a printed definition *******/

  // A printed section; a bare one consists of its header only.
  datatype Part = Part(name: string, bare: bool)

  ghost function Header(name: string): string { "MSG: " + name + "\n" }

  ghost function PartText(part: Part, g: Graph): string
    requires part.name in g
  {
    Header(part.name) + if part.bare then "" else Trim(g[part.name].parsed.source) + "\n"
  }

  ghost predicate Known(parts: seq<Part>, g: Graph) { forall part <- parts :: part.name in g }

  ghost function PartsText(parts: seq<Part>, g: Graph): string
    requires Known(parts, g)
  {
    if parts == [] then "" else SEPARATOR + PartText(parts[0], g) + PartsText(parts[1..], g)
  }

  lemma {:induction false} PartsTextAppend(a: seq<Part>, b: seq<Part>, g: Graph)
    requires Known(a, g) && Known(b, g)
    ensures Known(a + b, g) && PartsText(a + b, g) == PartsText(a, g) + PartsText(b, g)
  {
    hide PartText;
    if a == [] {
      assert a + b == b;
    } else {
      assert (a + b)[1..] == a[1..] + b;
      PartsTextAppend(a[1..], b, g);
    }
  }

  // The sections name exactly the given types; only blank messages are bare.
  ghost predicate Covers(parts: seq<Part>, names: seq<string>, g: Graph) {
    && Known(parts, g)
    && (forall part <- parts :: part.name in names && (part.bare ==> Blank(part.name, g)))
    && (forall n <- names :: exists part <- parts :: part.name == n)
  }

  ghost predicate GoodGraph(md5: string -> string, k: string, g: Graph) {
    Acyclic(LibraryOf(g)) && Consistent(md5, g) && CanonicalEntry(k, g)
  }

  // What is printed for an entry when it is itself a section: its text and the sections below it.
  ghost predicate PrintedAs(k: string, parts: seq<Part>, text: string, g: Graph)
    requires Acyclic(LibraryOf(g)) && k in g
  {
    && Covers(parts, References(k, g), g)
    && text + "\n" == Trim(g[k].parsed.source) + "\n" + PartsText(parts, g)
    && (parts == [] <==> References(k, g) == [])
  }

  lemma ResolvedParts(md5: string -> string, p: ParsedMessage, g: Graph)
    requires Acyclic(LibraryOf(g)) && Resolve(md5, p, g).Some?
    ensures Md5Sum(md5, p, LibraryOf(g)) == Some(Resolve(md5, p, g).value.md5sum)
    ensures FullDefinition(p, g) == Some(Resolve(md5, p, g).value.definition)
  {
    hide Acyclic, Md5Sum, FullDefinition, IsFixedLength;
  }

  lemma DefinitionText(p: ParsedMessage, g: Graph)
    requires Acyclic(LibraryOf(g)) && FullDefinition(p, g).Some?
    ensures ReferencedTypes(p, LibraryOf(g)).Some?
    ensures FullDefinition(p, g).value + "\n"
            == Trim(p.source) + "\n" + StoredSections(Sorted(ReferencedTypes(p, LibraryOf(g)).value), g)
  {
    hide Acyclic, Trim, ReferencedTypes, StoredSections;
    var names := Sorted(ReferencedTypes(p, LibraryOf(g)).value);
    var content := Trim(p.source) + "\n" + StoredSections(names, g);
    StoredSectionsEnd(names, g);
    assert content[|content| - 1] == '\n';
    assert content == content[..|content| - 1] + "\n";
  }

  lemma StoredDefinition(md5: string -> string, k: string, g: Graph)
    requires Consistent(md5, g) && k in g
    ensures forall d <- References(k, g) :: d in g
    ensures g[k].definition + "\n" == Trim(g[k].parsed.source) + "\n" + StoredSections(References(k, g), g)
    ensures Md5Sum(md5, g[k].parsed, LibraryOf(g)) == Some(g[k].md5sum)
    ensures FullName(g[k].parsed) == k
  {
    hide Acyclic, Trim, ReferencedTypes, StoredSections, Closed, Resolve, FullDefinition, Md5Sum;
    assert Resolve(md5, g[k].parsed, g) == Some(g[k]);
    ResolvedParts(md5, g[k].parsed, g);
    DefinitionText(g[k].parsed, g);
  }

  lemma {:induction false} StoredSectionsEnd(names: seq<string>, g: Graph)
    requires forall n <- names :: n in g
    ensures var s := StoredSections(names, g); s == "" || s[|s| - 1] == '\n'
  {
    hide Trim;
    if names != [] {
      StoredSectionsEnd(names[1..], g);
      var first := Section(FullName(g[names[0]].parsed), g[names[0]].definition);
      assert first[|first| - 1] == '\n';
    }
  }

  // The section that is printed last among those of a referenced type and its references.
  ghost function LastPart(d: string, g: Graph): (part: Part)
    requires Acyclic(LibraryOf(g)) && d in g
    ensures part.name in g
  {
    if References(d, g) == [] then Part(d, false) else Part(LastSection(d, g), Blank(LastSection(d, g), g))
  }

  lemma NameIsToken(md5: string -> string, k: string, g: Graph)
    requires Consistent(md5, g) && k in g && Canonical(g[k].parsed)
    ensures IsToken(k) && '=' !in k
  {
    hide Acyclic, Resolve, Closed, ParseMessage, CanonicalSource, Contains, IsSpace;
    assert FullName(g[k].parsed) == k;
  }

  lemma TrimAround(x: string, y: string, spaces: string)
    requires x != "" && !IsSpace(x[0]) && y != "" && !IsSpace(y[|y| - 1]) && forall c <- spaces :: IsSpace(c)
    ensures Trim(x + y + spaces) == x + y
  {
    hide IsSpace, Trim;
    assert "" + (x + y) + spaces == x + y + spaces;
    TrimBetweenSpaces("", x + y, spaces);
  }

  // Trimming a printed text turns a blank last section into its bare header, and nothing else.
  lemma TrimPart(x: string, n: string, bare: bool, g: Graph)
    requires n in g && IsToken(n) && (bare ==> Blank(n, g)) && x != "" && !IsSpace(x[0])
    ensures var text := x + PartText(Part(n, bare), g);
            Trim(text[..|text| - 1]) + "\n" == x + PartText(Part(n, Blank(n, g)), g)
  {
    hide IsSpace, Trim, IsTrimmed;
    var source := Trim(g[n].parsed.source);
    var _, _ := TrimShape(g[n].parsed.source);
    if Blank(n, g) {
      assert source + "\n" == "\n";
      TrimHeader(x, n, if bare then "" else "\n");
    } else {
      assert IsTrimmed(source);
      TrimBody(x, n, source);
    }
  }

  lemma TrimHeader(x: string, n: string, spaces: string)
    requires IsToken(n) && x != "" && !IsSpace(x[0]) && (spaces == "" || spaces == "\n")
    ensures var text := x + (Header(n) + spaces); Trim(text[..|text| - 1]) + "\n" == x + (Header(n) + "")
  {
    assert IsSpace('\n');
    hide IsSpace, Trim;
    assert n[|n| - 1] in n;
    var text := x + (Header(n) + spaces);
    assert text[..|text| - 1] == x + ("MSG: " + n) + spaces;
    TrimAround(x, "MSG: " + n, spaces);
    assert x + ("MSG: " + n) + "\n" == x + (Header(n) + "");
  }

  lemma TrimBody(x: string, n: string, source: string)
    requires x != "" && !IsSpace(x[0]) && source != "" && IsTrimmed(source)
    ensures var text := x + (Header(n) + (source + "\n")); Trim(text[..|text| - 1]) + "\n" == text
  {
    hide IsSpace, Trim;
    var text := x + (Header(n) + (source + "\n"));
    assert text[..|text| - 1] == x + (Header(n) + source) + "";
    TrimAround(x, Header(n) + source, "");
    assert x + (Header(n) + source) + "\n" == text;
  }

  lemma TrimNothing(k: string, text: string, g: Graph)
    requires k in g && text + "\n" == Trim(g[k].parsed.source) + "\n" + PartsText([], g)
    ensures Trim(text) + "\n" == Trim(g[k].parsed.source) + "\n" + PartsText([], g)
  {
    hide IsSpace, Trim;
    var source := Trim(g[k].parsed.source);
    var _, _ := TrimShape(g[k].parsed.source);
    assert source + "\n" + "" == source + "\n";
    LastCharacter(source, text);
    TrimOfTrimmed(source);
  }

  // A text with one more section at its end.
  lemma PrintedWithLast(source: string, front: seq<Part>, last: Part, g: Graph)
    requires Known(front, g) && last.name in g
    ensures Known(front + [last], g)
    ensures source + "\n" + PartsText(front + [last], g)
            == source + "\n" + PartsText(front, g) + SEPARATOR + PartText(last, g)
  {
    hide PartText, PartsText;
    PartsTextOfOne(last, g);
    PartsTextAppend(front, [last], g);
    Regroup(source + "\n", PartsText(front, g), SEPARATOR, PartText(last, g));
  }

  lemma TrimText(source: string, front: seq<Part>, last: Part, text: string, g: Graph)
    requires Known(front, g) && IsToken(last.name) && last.name in g && (last.bare ==> Blank(last.name, g))
    requires source != "" && !IsSpace(source[0])
    requires text + "\n" == source + "\n" + PartsText(front, g) + SEPARATOR + PartText(last, g)
    ensures var last' := Part(last.name, Blank(last.name, g));
            Trim(text) + "\n" == source + "\n" + PartsText(front, g) + SEPARATOR + PartText(last', g)
  {
    hide IsSpace, Trim, PartText, IsToken, PartsText, Blank;
    var x := source + "\n" + PartsText(front, g) + SEPARATOR;
    assert x[0] == source[0];
    TrimPart(x, last.name, last.bare, g);
    assert last == Part(last.name, last.bare);
    assert text == (text + "\n")[..|text + "\n"| - 1];
  }

  lemma TrimParts(md5: string -> string, k: string, parts: seq<Part>, g: Graph) returns (trimmed: seq<Part>)
    requires GoodGraph(md5, k, g) && PrintedAs(k, parts, g[k].definition, g)
    ensures PrintedAs(k, trimmed, Trim(g[k].definition), g)
    ensures if parts == [] then trimmed == [] else
            trimmed == parts[..|parts| - 1] + [Part(parts[|parts| - 1].name, Blank(parts[|parts| - 1].name, g))]
  {
    hide Acyclic, Consistent, References, Canonical, IsSpace, Trim, PartText, IsToken, PartsText, Blank;
    var source := Trim(g[k].parsed.source);
    if parts == [] {
      TrimNothing(k, g[k].definition, g);
      trimmed := [];
    } else {
      var front, last := parts[..|parts| - 1], parts[|parts| - 1];
      assert parts == front + [last];
      SourceStarts(k, g);
      assert last in parts && forall part <- front :: part in parts;
      NameIsToken(md5, last.name, g);
      PrintedWithLast(source, front, last, g);
      TrimText(source, front, last, g[k].definition, g);
      var last' := Part(last.name, Blank(last.name, g));
      PrintedWithLast(source, front, last', g);
      trimmed := front + [last'];
      CoversRenamed(parts, trimmed, References(k, g), g);
    }
  }

  lemma SourceStarts(k: string, g: Graph)
    requires Acyclic(LibraryOf(g)) && CanonicalEntry(k, g) && References(k, g) != []
    ensures Trim(g[k].parsed.source) != "" && !IsSpace(Trim(g[k].parsed.source)[0])
  {
    hide Acyclic, References, Canonical, IsSpace, Trim;
    var _, _ := TrimShape(g[k].parsed.source);
    if Blank(k, g) { BlankIsEmpty(k, g); }
  }

  lemma LastCharacter(a: string, b: string)
    requires a + "\n" == b + "\n"
    ensures a == b
  {
    assert |a| == |b|;
    assert a == (a + "\n")[..|a|] && b == (b + "\n")[..|b|];
  }

  lemma PartsTextOfOne(part: Part, g: Graph)
    requires part.name in g
    ensures Known([part], g) && PartsText([part], g) == SEPARATOR + PartText(part, g)
  {
    assert PartsText([part][1..], g) == "";
  }

  lemma CoversRenamed(parts: seq<Part>, parts': seq<Part>, names: seq<string>, g: Graph)
    requires Covers(parts, names, g) && |parts| == |parts'|
    requires forall i | 0 <= i < |parts| :: parts'[i].name == parts[i].name
    requires forall part <- parts' :: part.name in g && (part.bare ==> Blank(part.name, g))
    ensures Covers(parts', names, g)
  {
    hide Blank;
    forall part <- parts' ensures part.name in names {
      var i :| 0 <= i < |parts'| && parts'[i] == part;
      assert parts[i] in parts;
    }
    forall n <- names ensures exists part <- parts' :: part.name == n {
      var part :| part in parts && part.name == n;
      var i :| 0 <= i < |parts| && parts[i] == part;
      assert parts'[i] in parts';
    }
  }

  // The sections of the stored definitions of some references, in order.
  lemma {:induction false} StoredParts(md5: string -> string, k: string, names: seq<string>, g: Graph)
    returns (parts: seq<Part>)
    requires GoodGraph(md5, k, g) && forall n <- names :: n in g && n in References(k, g)
    ensures Known(parts, g) && StoredSections(names, g) == PartsText(parts, g)
    ensures forall part <- parts :: part.name in References(k, g) && (part.bare ==> Blank(part.name, g))
    ensures forall n <- names :: exists part <- parts :: part.name == n
    ensures if names == [] then parts == [] else parts != [] && parts[|parts| - 1] == LastPart(names[|names| - 1], g)
    decreases Rank(k, LibraryOf(g)), 0, |names|
  {
    hide Acyclic, Consistent, References, Canonical, Trim, LastSection, Blank, Rank, PartsText, StoredSections;
    if names == [] {
      parts := [];
      NoParts(g);
      NothingStored(g);
    } else {
      var n := names[0];
      ReferenceIsBelow(k, n, g);
      ReferenceIsCanonical(k, n, g);
      var nested := NestedParts(md5, n, g);
      var rest := StoredParts(md5, k, names[1..], g);
      parts := [Part(n, false)] + nested + rest;
      StoredCons(md5, names, nested, rest, g);
      CoverMore(parts, names, nested, rest);
      if names[1..] == [] {
        assert names == [n] && parts == [Part(n, false)] + nested;
      }
    }
  }

  lemma NothingStored(g: Graph)
    ensures StoredSections([], g) == ""
  {
  }

  lemma StoredCons(md5: string -> string, names: seq<string>, nested: seq<Part>, rest: seq<Part>, g: Graph)
    requires names != [] && forall n <- names :: n in g
    requires GoodGraph(md5, names[0], g) && PrintedAs(names[0], nested, Trim(g[names[0]].definition), g)
    requires Known(rest, g) && StoredSections(names[1..], g) == PartsText(rest, g)
    ensures var parts := [Part(names[0], false)] + nested + rest;
            Known(parts, g) && StoredSections(names, g) == PartsText(parts, g)
  {
    hide Acyclic, Consistent, References, Canonical, Trim, Blank, PartsText, PartText;
    var own := Part(names[0], false);
    PartsTextOfOne(own, g);
    PartsTextAppend([own], nested, g);
    PartsTextAppend([own] + nested, rest, g);
    SectionParts(md5, names[0], nested, g);
  }

  lemma CoverMore(parts: seq<Part>, names: seq<string>, nested: seq<Part>, rest: seq<Part>)
    requires names != [] && parts == [Part(names[0], false)] + nested + rest
    requires forall n <- names[1..] :: exists part <- rest :: part.name == n
    ensures forall n <- names :: exists part <- parts :: part.name == n
  {
    assert parts[0] in parts;
    forall n <- names ensures exists part <- parts :: part.name == n {
      if n != names[0] {
        assert n in names[1..];
        var part :| part in rest && part.name == n;
        assert part in parts;
      }
    }
  }

  lemma SectionText(n: string, definition: string, source: string, body: string)
    requires Trim(definition) + "\n" == source + "\n" + body
    ensures Section(n, definition) == (SEPARATOR + (Header(n) + (source + "\n"))) + body
  {
    hide Trim;
    assert Section(n, definition) == SEPARATOR + Header(n) + (Trim(definition) + "\n");
  }

  lemma SectionParts(md5: string -> string, n: string, nested: seq<Part>, g: Graph)
    requires GoodGraph(md5, n, g) && PrintedAs(n, nested, Trim(g[n].definition), g)
    ensures Section(FullName(g[n].parsed), g[n].definition)
            == (SEPARATOR + PartText(Part(n, false), g)) + PartsText(nested, g)
  {
    hide Acyclic, Consistent, References, Canonical, Trim, FullName, Blank, Section, Header, PartsText;
    StoredDefinition(md5, n, g);
    SectionText(n, g[n].definition, Trim(g[n].parsed.source), PartsText(nested, g));
  }

  lemma {:induction false} DefinitionParts(md5: string -> string, k: string, g: Graph) returns (parts: seq<Part>)
    requires GoodGraph(md5, k, g)
    ensures PrintedAs(k, parts, g[k].definition, g)
    ensures parts != [] ==>
              var refs := References(k, g);
              refs[|refs| - 1] in g && parts[|parts| - 1] == LastPart(refs[|refs| - 1], g)
    decreases Rank(k, LibraryOf(g)), 1
  {
    hide Acyclic, Consistent, References, Canonical, Trim, LastSection, Blank, Rank;
    StoredDefinition(md5, k, g);
    parts := StoredParts(md5, k, References(k, g), g);
  }

  lemma {:induction false} NestedParts(md5: string -> string, k: string, g: Graph) returns (parts: seq<Part>)
    requires GoodGraph(md5, k, g)
    ensures PrintedAs(k, parts, Trim(g[k].definition), g)
    ensures parts != [] ==> parts[|parts| - 1] == LastPart(k, g)
    decreases Rank(k, LibraryOf(g)), 2
  {
    hide Acyclic, Consistent, References, Canonical, Trim, Blank, Rank;
    var printed := DefinitionParts(md5, k, g);
    parts := TrimParts(md5, k, printed, g);
  }

  /******* reading the sections back *******/

  ghost predicate SeparatorFree(s: string) { !Contains(s, SEPARATOR) }

  // The separator cannot begin inside a text and end beyond it: its only line end is its last character.
  lemma SeparatorDoesNotStraddle(head: string, rest: string, j: nat)
    requires OccursAt(head + SEPARATOR + rest, SEPARATOR, j) && j < |head|
    ensures OccursAt(head, SEPARATOR, j)
  {
    var s := head + SEPARATOR + rest;
    assert |SEPARATOR| == 81;
    assert s[j..j + 81][80] == SEPARATOR[80] == '\n';
    assert forall i | 0 <= i < 81 :: s[|head| + i] == SEPARATOR[i];
    assert forall i | 0 <= i < 80 :: SEPARATOR[i] == '=';
    assert j + 81 <= |head|;
    assert head[j..j + 81] == s[j..j + 81];
  }

  lemma SplitAtSeparator(head: string, rest: string)
    requires SeparatorFree(head)
    ensures SplitStr(head + SEPARATOR + rest, SEPARATOR) == [head] + SplitStr(rest, SEPARATOR)
  {
    hide SplitStr, OccursAt;
    forall j | 0 <= j < |head| ensures !OccursAt(head + SEPARATOR + rest, SEPARATOR, j) {
      if OccursAt(head + SEPARATOR + rest, SEPARATOR, j) {
        SeparatorDoesNotStraddle(head, rest, j);
      }
    }
    ReplaceFirst(head, SEPARATOR, rest, "");
  }

  ghost function Texts(parts: seq<Part>, g: Graph): (texts: seq<string>)
    requires Known(parts, g)
    ensures |texts| == |parts| && forall i | 0 <= i < |parts| :: texts[i] == PartText(parts[i], g)
  {
    if parts == [] then [] else [PartText(parts[0], g)] + Texts(parts[1..], g)
  }

  lemma {:induction false} SplitParts(head: string, parts: seq<Part>, last: string, g: Graph)
    requires Known(parts, g) && SeparatorFree(head) && SeparatorFree(last)
    requires forall part <- parts :: SeparatorFree(PartText(part, g))
    ensures SplitStr(head + PartsText(parts, g) + SEPARATOR + last, SEPARATOR) == [head] + Texts(parts, g) + [last]
    decreases |parts|
  {
    hide PartText, SplitStr, Contains;
    if parts == [] {
      assert head + "" == head;
      SplitAtSeparator(head, last);
      ReplaceNothing(last, SEPARATOR, "");
      assert [head] + [] + [last] == [head] + [last];
    } else {
      var first, more := PartText(parts[0], g), PartsText(parts[1..], g);
      var rest := first + more + SEPARATOR + last;
      assert PartsText(parts, g) == SEPARATOR + first + more;
      assert Texts(parts, g) == [first] + Texts(parts[1..], g);
      hide PartsText, Texts;
      FirstPartFirst(head, first, more, last);
      SplitAtSeparator(head, rest);
      SplitParts(first, parts[1..], last, g);
      assert [head] + ([first] + Texts(parts[1..], g) + [last]) == [head] + ([first] + Texts(parts[1..], g)) + [last];
    }
  }

  lemma FirstPartFirst(head: string, first: string, more: string, last: string)
    ensures head + (SEPARATOR + first + more) + SEPARATOR + last == head + SEPARATOR + (first + more + SEPARATOR + last)
  {
    hide Repeat;
    var s := SEPARATOR;
    assert head + (s + first + more) == head + s + (first + more);
    Regroup(head + s, first + more, s, last);
    Regroup("", first + more, s, last);
  }

  lemma PrefixLacksSeparator(s: string, n: nat)
    requires SeparatorFree(s) && n <= |s|
    ensures SeparatorFree(s[..n])
  {
    if Contains(s[..n], SEPARATOR) {
      assert s == "" + s[..n] + s[n..];
      ContainedInPart("", s[..n], s[n..], SEPARATOR);
    }
  }

  // A header followed by text without separator has no separator.
  lemma HeaderLacksSeparator(name: string, body: string)
    requires '=' !in name && SeparatorFree(body)
    ensures SeparatorFree(Header(name) + body)
  {
    hide Contains;
    if Contains(Header(name) + body, SEPARATOR) {
      SeparatorAfterHeader(name, body);
    }
  }

  lemma SeparatorAfterHeader(name: string, body: string)
    requires '=' !in name && Contains(Header(name) + body, SEPARATOR)
    ensures Contains(body, SEPARATOR)
  {
    var s := Header(name) + body;
    var i :| 0 <= i <= |s| && OccursAt(s, SEPARATOR, i);
    assert |SEPARATOR| == 81 && SEPARATOR[0] == '=';
    assert s[i..i + 81][0] == s[i] == '=';
    assert '=' !in Header(name);
    assert i >= |Header(name)|;
    assert body[i - |Header(name)|..i - |Header(name)| + 81] == s[i..i + 81];
    assert OccursAt(body, SEPARATOR, i - |Header(name)|);
  }

  lemma PartLacksSeparator(md5: string -> string, part: Part, g: Graph)
    requires Consistent(md5, g) && part.name in g && Canonical(g[part.name].parsed)
    ensures SeparatorFree(PartText(part, g))
  {
    hide Acyclic, Consistent, Contains, Trim, ParseMessage, CanonicalSource, IsSpace;
    NameIsToken(md5, part.name, g);
    if part.bare {
      EmptyLacksSeparator();
      HeaderLacksSeparator(part.name, "");
    } else {
      HeaderLacksSeparator(part.name, Trim(g[part.name].parsed.source) + "\n");
    }
  }

  lemma EmptyLacksSeparator()
    ensures SeparatorFree("")
  {
    assert |SEPARATOR| == 81;
  }

  lemma HeaderLine(name: string)
    requires IsToken(name)
    ensures '\n' !in "MSG: " + name && DropCarriageReturn("MSG: " + name) == "MSG: " + name
  {
    assert name[|name| - 1] in name;
    assert forall c <- "MSG: " + name :: c in "MSG: " || c in name;
  }

  // A section with a line end after its header gives the type and the cleaned body.
  lemma ReadHeader(name: string, body: string)
    requires IsToken(name)
    ensures ReadSection(Header(name) + body) == Ok((name, Clean(body)))
  {
    hide IsToken, Clean, SplitWhitespace, DropCarriageReturn, Lines;
    var first := "MSG: " + name;
    HeaderLine(name);
    assert Header(name) + body == first + ("\n" + body) == first + "\n" + body;
    LinesOfLine(first, body);
    HeaderWords(name);
    IndexOfAppend(first, "\n" + body, '\n');
    assert (Header(name) + body)[|first| + 1..] == body;
  }

  lemma ReadBareHeader(name: string)
    requires IsToken(name)
    ensures ReadSection("MSG: " + name) == Err(NoBody("MSG: " + name))
  {
    hide IsToken, Clean, SplitWhitespace, Lines;
    var first := "MSG: " + name;
    HeaderLine(name);
    LinesOfLastLine(first);
    HeaderWords(name);
    IndexOfUnique(first, '\n', |first|);
  }

  lemma HeaderWords(name: string)
    requires IsToken(name)
    ensures SplitWhitespace("MSG: " + name) == ["MSG:", name]
  {
    assert IsToken("MSG:");
    TwoWords("MSG:", name);
    assert "MSG:" + " " + name == "MSG: " + name;
  }

  // Reading sections one after the other collects their bodies by type.
  lemma {:induction false} AddNamed(sections: seq<string>, names: seq<string>, bodies: map<string, string>,
                                    defs: Sections)
    requires |sections| == |names| && forall i | 0 <= i < |names| :: names[i] in bodies
    requires forall i | 0 <= i < |names| :: ReadSection(sections[i]) == Ok((names[i], bodies[names[i]]))
    ensures AddSections(sections, defs).Ok?
    ensures var r := AddSections(sections, defs).value;
            && (forall n :: n in r <==> n in defs || n in names)
            && (forall n <- r.Keys :: r[n] == if n in names then bodies[n] else defs[n])
  {
    hide ReadSection;
    if sections != [] {
      AddNamed(sections[1..], names[1..], bodies, defs[names[0] := bodies[names[0]]]);
      assert forall n :: n in names <==> n == names[0] || n in names[1..];
    }
  }

  lemma {:induction false} AddFailing(sections: seq<string>, last: string, defs: Sections)
    requires AddSections(sections, defs).Ok? && ReadSection(last).Err?
    ensures AddSections(sections + [last], defs) == Err(ReadSection(last).error)
  {
    hide ReadSection;
    var all := sections + [last];
    if sections != [] {
      assert all[1..] == sections[1..] + [last];
      AddFailing(sections[1..], last, defs[ReadSection(sections[0]).value.0 := ReadSection(sections[0]).value.1]);
    } else {
      assert all[1..] == [];
    }
  }

  ghost function Names(parts: seq<Part>): (names: seq<string>)
    ensures |names| == |parts| && forall i | 0 <= i < |parts| :: names[i] == parts[i].name
  {
    if parts == [] then [] else [parts[0].name] + Names(parts[1..])
  }

  ghost function Bodies(k: string, g: Graph): map<string, string>
    requires Acyclic(LibraryOf(g)) && CanonicalEntry(k, g)
  {
    map n | n in References(k, g) :: Clean(g[n].parsed.source)
  }

  lemma ReadPart(md5: string -> string, part: Part, g: Graph)
    requires Consistent(md5, g) && part.name in g && Canonical(g[part.name].parsed)
    requires part.bare ==> Blank(part.name, g)
    ensures ReadSection(PartText(part, g)) == Ok((part.name, Clean(g[part.name].parsed.source)))
  {
    hide Acyclic, Consistent, Canonical, Clean, Trim, ReadSection, IsSpace;
    NameIsToken(md5, part.name, g);
    var source := g[part.name].parsed.source;
    CleanOfTrimmed(source);
    ReadHeader(part.name, if part.bare then "" else Trim(source) + "\n");
  }

  /******* the theorem *******/

  // The text of the last section in the definition, whose final line end is left out.
  ghost function LastText(part: Part, g: Graph): string
    requires part.name in g
  {
    var text := PartText(part, g); text[..|text| - 1]
  }

  lemma SplitText(source: string, front: seq<Part>, last: Part, text: string, g: Graph)
    requires Known(front + [last], g) && SeparatorFree(source + "\n")
    requires forall part <- front + [last] :: SeparatorFree(PartText(part, g))
    requires text + "\n" == source + "\n" + PartsText(front + [last], g)
    ensures last in front + [last]
    ensures SplitStr(text, SEPARATOR) == [source + "\n"] + Texts(front, g) + [LastText(last, g)]
  {
    hide PartText, PartsText, Contains, SplitStr, LastText;
    assert last in front + [last] && forall part <- front :: part in front + [last];
    LastPartEnds(last, g);
    assert PartText(last, g)[..|LastText(last, g)|] == LastText(last, g);
    PrefixLacksSeparator(PartText(last, g), |LastText(last, g)|);
    SplitParts(source + "\n", front, LastText(last, g), g);
    PrintedWithLast(source, front, last, g);
    var start := source + "\n" + PartsText(front, g) + SEPARATOR;
    assert start + (LastText(last, g) + "\n") == start + LastText(last, g) + "\n";
    LastCharacter(start + LastText(last, g), text);
  }

  lemma SplitDefinition(md5: string -> string, k: string, parts: seq<Part>, g: Graph)
    requires GoodGraph(md5, k, g) && PrintedAs(k, parts, g[k].definition, g)
    ensures SplitStr(g[k].definition, SEPARATOR)
            == if parts == [] then [Trim(g[k].parsed.source)]
               else [Trim(g[k].parsed.source) + "\n"] + Texts(parts[..|parts| - 1], g)
                    + [LastText(parts[|parts| - 1], g)]
  {
    hide Acyclic, Consistent, References, Canonical, Trim, PartText, PartsText, Blank, Contains, SplitStr, LastText;
    var source := Trim(g[k].parsed.source);
    SourceLacksSeparator(k, g);
    if parts == [] {
      SplitAlone(source, g[k].definition, g);
    } else {
      var front, last := parts[..|parts| - 1], parts[|parts| - 1];
      assert parts == front + [last];
      forall part <- parts ensures SeparatorFree(PartText(part, g)) {
        PartLacksSeparator(md5, part, g);
      }
      SplitText(source, front, last, g[k].definition, g);
    }
  }

  lemma SplitAlone(source: string, text: string, g: Graph)
    requires SeparatorFree(source + "\n") && text + "\n" == source + "\n" + PartsText([], g)
    ensures SplitStr(text, SEPARATOR) == [source]
  {
    hide Contains;
    NoParts(g);
    assert source + "\n" + "" == source + "\n";
    LastCharacter(source, text);
    assert (source + "\n")[..|source|] == source;
    PrefixLacksSeparator(source + "\n", |source|);
    ReplaceNothing(source, SEPARATOR, "");
  }

  lemma NoParts(g: Graph)
    ensures PartsText([], g) == ""
  {
  }

  lemma LastPartEnds(part: Part, g: Graph)
    requires part.name in g
    ensures PartText(part, g) == LastText(part, g) + "\n"
  {
    hide Trim;
    var text := PartText(part, g);
    assert text[|text| - 1] == '\n';
  }

  lemma SourceLacksSeparator(k: string, g: Graph)
    requires k in g && Canonical(g[k].parsed)
    ensures SeparatorFree(Trim(g[k].parsed.source) + "\n")
  {
  }

  lemma ReadLastPart(md5: string -> string, part: Part, g: Graph)
    requires Consistent(md5, g) && part.name in g && Canonical(g[part.name].parsed)
    ensures if part.bare then ReadSection(LastText(part, g)) == Err(NoBody(LastText(part, g)))
            else ReadSection(LastText(part, g)) == Ok((part.name, Clean(g[part.name].parsed.source)))
  {
    hide Acyclic, Consistent, Canonical, Clean, Trim, ReadSection, IsSpace, IsToken;
    NameIsToken(md5, part.name, g);
    var source := g[part.name].parsed.source;
    if part.bare {
      assert LastText(part, g) == "MSG: " + part.name;
      ReadBareHeader(part.name);
    } else {
      assert LastText(part, g) == Header(part.name) + Trim(source);
      CleanOfTrimmed(source);
      ReadHeader(part.name, Trim(source));
    }
  }

  // The sections that are read back.
  ghost function Transcript(k: string, g: Graph): Sections
    requires Acyclic(LibraryOf(g)) && CanonicalEntry(k, g)
  {
    map n | n in [k] + References(k, g) :: Clean(g[n].parsed.source)
  }

  lemma ReadParts(md5: string -> string, k: string, parts: seq<Part>, defs: Sections, g: Graph)
    requires GoodGraph(md5, k, g) && Known(parts, g)
    requires forall part <- parts :: part.name in References(k, g) && (part.bare ==> Blank(part.name, g))
    ensures AddSections(Texts(parts, g), defs).Ok?
    ensures var r := AddSections(Texts(parts, g), defs).value;
            && (forall n :: n in r <==> n in defs || n in Names(parts))
            && (forall n <- r.Keys :: r[n] == if n in Names(parts) then Bodies(k, g)[n] else defs[n])
  {
    hide Acyclic, Consistent, Canonical, Clean, PartText, ReadSection, References, Blank;
    forall i | 0 <= i < |parts|
      ensures parts[i].name in Bodies(k, g)
      ensures ReadSection(Texts(parts, g)[i]) == Ok((parts[i].name, Bodies(k, g)[parts[i].name]))
    {
      assert parts[i] in parts;
      ReadPart(md5, parts[i], g);
    }
    AddNamed(Texts(parts, g), Names(parts), Bodies(k, g), defs);
  }

  lemma {:induction false} AddOneMore(sections: seq<string>, last: string, defs: Sections)
    requires AddSections(sections, defs).Ok? && ReadSection(last).Ok?
    ensures AddSections(sections + [last], defs)
            == Ok(AddSections(sections, defs).value[ReadSection(last).value.0 := ReadSection(last).value.1])
  {
    hide ReadSection;
    var all := sections + [last];
    if sections != [] {
      assert all[1..] == sections[1..] + [last];
      AddOneMore(sections[1..], last, defs[ReadSection(sections[0]).value.0 := ReadSection(sections[0]).value.1]);
    } else {
      assert all[1..] == [];
    }
  }

  lemma ReadTail(md5: string -> string, k: string, parts: seq<Part>, g: Graph)
    requires GoodGraph(md5, k, g) && Covers(parts, References(k, g), g) && parts != []
    ensures var tail := Texts(parts[..|parts| - 1], g) + [LastText(parts[|parts| - 1], g)];
            var r := AddSections(tail, map[k := Clean(g[k].parsed.source)]);
            if parts[|parts| - 1].bare then r.Err? && r.error.NoBody? else r == Ok(Transcript(k, g))
  {
    hide Acyclic, Consistent, Canonical, Clean, PartText, ReadSection, References, Blank, LastText, AddSections;
    var root := map[k := Clean(g[k].parsed.source)];
    var front, last := parts[..|parts| - 1], parts[|parts| - 1];
    assert last in parts && forall part <- front :: part in parts;
    ReadParts(md5, k, front, root, g);
    ReadLastPart(md5, last, g);
    if last.bare {
      AddFailing(Texts(front, g), LastText(last, g), root);
    } else {
      AddOneMore(Texts(front, g), LastText(last, g), root);
      TranscriptReached(md5, k, parts, AddSections(Texts(front, g), root).value, g);
    }
  }

  lemma TranscriptReached(md5: string -> string, k: string, parts: seq<Part>, r: Sections, g: Graph)
    requires GoodGraph(md5, k, g) && Covers(parts, References(k, g), g) && parts != []
    requires forall n :: n in r <==> n == k || n in Names(parts[..|parts| - 1])
    requires forall n <- r.Keys :: n in g && r[n] == Clean(g[n].parsed.source)
    ensures parts[|parts| - 1].name in g
    ensures r[parts[|parts| - 1].name := Clean(g[parts[|parts| - 1].name].parsed.source)] == Transcript(k, g)
  {
    hide Acyclic, Consistent, Canonical, Clean, References, Blank;
    CoveredNames(md5, k, parts, g);
    assert parts[|parts| - 1] in parts;
  }

  lemma LastPartIsBare(k: string, parts: seq<Part>, g: Graph)
    requires Acyclic(LibraryOf(g)) && k in g && (parts == [] <==> References(k, g) == [])
    requires parts != [] ==>
               var refs := References(k, g);
               refs[|refs| - 1] in g && parts[|parts| - 1] == LastPart(refs[|refs| - 1], g)
    ensures EndsInBareHeader(k, g) <==> parts != [] && parts[|parts| - 1].bare
  {
    hide Acyclic, References, Blank, LastSection;
  }

  lemma ReadPrinted(md5: string -> string, k: string, parts: seq<Part>, g: Graph)
    requires GoodGraph(md5, k, g) && PrintedAs(k, parts, g[k].definition, g)
    requires g[k].parsed.fields != [] || g[k].parsed.constants != []
    ensures var r := SubMessages(k, g[k].definition);
            if parts != [] && parts[|parts| - 1].bare then r.Err? && r.error.NoBody? else r == Ok(Transcript(k, g))
  {
    hide Acyclic, Consistent, Canonical, Clean, PartText, PartsText, References, Blank, Trim, SplitStr, SubMessages;
    hide LastText, AddSections;
    SplitDefinition(md5, k, parts, g);
    CleanOfTrimmed(g[k].parsed.source);
    RootIsNotEmpty(k, parts, g);
    var root := map[k := Clean(g[k].parsed.source)];
    if parts == [] {
      ReadSections(k, g[k].definition, Trim(g[k].parsed.source), [], root);
      AddNothing(root);
      assert Transcript(k, g) == root;
    } else {
      var tail := Texts(parts[..|parts| - 1], g) + [LastText(parts[|parts| - 1], g)];
      ReadSections(k, g[k].definition, Trim(g[k].parsed.source) + "\n", tail, root);
      hide Transcript;
      ReadTail(md5, k, parts, g);
    }
  }

  // Reading the printed definition gives the cleaned source of the message and of every type
  // that it refers to, unless the text ends in a bare header.
  lemma ReadDefinition(md5: string -> string, k: string, g: Graph)
    requires GoodGraph(md5, k, g)
    requires g[k].parsed.fields != [] || g[k].parsed.constants != []
    ensures var r := SubMessages(k, g[k].definition);
            if EndsInBareHeader(k, g) then r.Err? && r.error.NoBody? else r == Ok(Transcript(k, g))
  {
    hide Acyclic, Consistent, References, SubMessages, EndsInBareHeader, LastPart, Transcript, Canonical, Covers;
    var parts := DefinitionParts(md5, k, g);
    LastPartIsBare(k, parts, g);
    ReadPrinted(md5, k, parts, g);
  }

  lemma ReadSections(k: string, definition: string, first: string, tail: seq<string>, root: Sections)
    requires definition != "" && SplitStr(definition, SEPARATOR) == [first] + tail
    requires Clean(first) != "" && root == map[k := Clean(first)]
    ensures SubMessages(k, definition) == AddSections(tail, root)
  {
    hide Clean, SplitStr, AddSections;
    assert ([first] + tail)[1..] == tail;
  }

  lemma AddNothing(defs: Sections)
    ensures AddSections([], defs) == Ok(defs)
  {
  }

  lemma RootIsNotEmpty(k: string, parts: seq<Part>, g: Graph)
    requires Acyclic(LibraryOf(g)) && CanonicalEntry(k, g) && PrintedAs(k, parts, g[k].definition, g)
    requires g[k].parsed.fields != [] || g[k].parsed.constants != []
    ensures g[k].definition != "" && Clean(g[k].parsed.source) != ""
  {
    hide Acyclic, Canonical, Clean, PartsText, References, Blank, Trim;
    var _ := CleanedSource(g[k].parsed);
    assert Trim(g[k].parsed.source) != "" by {
      if Blank(k, g) { BlankIsEmpty(k, g); }
      BlankMeans(k, g);
    }
  }

  lemma BlankMeans(k: string, g: Graph)
    requires k in g
    ensures Blank(k, g) <==> Trim(g[k].parsed.source) == ""
  {
  }

  lemma CoveredNames(md5: string -> string, k: string, parts: seq<Part>, g: Graph)
    requires GoodGraph(md5, k, g) && Covers(parts, References(k, g), g) && parts != []
    ensures forall n :: n in References(k, g) <==> n in Names(parts[..|parts| - 1]) || n == parts[|parts| - 1].name
    ensures k !in References(k, g)
  {
    hide Acyclic, Consistent, Canonical, References, Blank;
    if k in References(k, g) { ReferenceIsBelow(k, k, g); }
    var front, last := parts[..|parts| - 1], parts[|parts| - 1];
    forall n ensures n in References(k, g) <==> n in Names(front) || n == last.name {
      if n in References(k, g) {
        var part :| part in parts && part.name == n;
        var i :| 0 <= i < |parts| && parts[i] == part;
        assert i < |front| ==> Names(front)[i] == n;
      }
      if n in Names(front) {
        var i :| 0 <= i < |front| && Names(front)[i] == n;
        assert parts[i] in parts;
      }
      assert last in parts;
    }
  }

  lemma {:induction false} FieldsAreReferenced(version: RosVersion, fields: seq<FieldInfo>, lib: Library)
    requires Acyclic(lib) && UniqueTypes(version, fields, lib).Some?
    ensures forall f <- fields ::
              IsIntrinsic(version, f.fieldType.fieldType) || FullTypeName(f) in UniqueTypes(version, fields, lib).value
    decreases |fields|
  {
    hide Acyclic, IsIntrinsic, FullTypeName;
    if fields != [] {
      if !IsIntrinsic(version, fields[0].fieldType.fieldType) { LevelOfEntry(FullTypeName(fields[0]), lib); }
      FieldsAreReferenced(version, fields[1..], lib);
    }
  }

  lemma EntryIsReferenced(md5: string -> string, n: string, g: Graph)
    requires Consistent(md5, g) && n in g && VersionOf(g[n].parsed) == Ros1
    ensures forall f <- g[n].parsed.fields ::
              IsIntrinsic(Ros1, f.fieldType.fieldType) || FullTypeName(f) in References(n, g)
  {
    hide Acyclic, UniqueTypes, Resolve, Closed, FullDefinition;
    assert Resolve(md5, g[n].parsed, g).Some?;
    ResolvedParts(md5, g[n].parsed, g);
    DefinitionText(g[n].parsed, g);
    FieldsAreReferenced(Ros1, g[n].parsed.fields, LibraryOf(g));
  }

  lemma TranscriptIsTranscribed(md5: string -> string, k: string, g: Graph)
    requires GoodGraph(md5, k, g)
    ensures Transcribed(Transcript(k, g), LibraryOf(g))
  {
    hide Acyclic, Resolve, Closed, References, Clean, Canonical, IsIntrinsic;
    var defs := Transcript(k, g);
    forall n <- defs.Keys ensures n in g && FullName(g[n].parsed) == n && Referenced(g[n].parsed.fields, defs) {
      if n != k { ReferenceIsBelow(k, n, g); }
      IsRos1(g[n].parsed);
      EntryIsReferenced(md5, n, g);
    }
  }

  lemma IsRos1(p: ParsedMessage)
    requires Canonical(p)
    ensures VersionOf(p) == Ros1
  {
  }

  // The printed definition can always be hashed.
  lemma PrintedDefinitionIsAcyclic(md5: string -> string, k: string, g: Graph)
    requires GoodGraph(md5, k, g)
    ensures AcyclicDefinition(k, g[k].definition)
    ensures g[k].parsed.fields == [] && g[k].parsed.constants == [] ==>
              SubMessages(k, g[k].definition) in {Err(EmptyDefinition), Err(EmptyRoot)}
  {
    hide Acyclic, Consistent, Canonical, Clean, References, Trim, SplitStr, Ends, AddSections;
    if g[k].parsed.fields == [] && g[k].parsed.constants == [] {
      var parts := DefinitionParts(md5, k, g);
      SplitDefinition(md5, k, parts, g);
      CleanOfTrimmed(g[k].parsed.source);
      var _ := CleanedSource(g[k].parsed);
    } else {
      ReadDefinition(md5, k, g);
      TranscriptIsTranscribed(md5, k, g);
      TranscribedIsAcyclic(Transcript(k, g), LibraryOf(g));
    }
  }

  // In every consistent graph, hashing the printed definition of a canonical ROS1 message
  // gives the md5 sum of its structure exactly when the message declares something and its
  // text does not end in a bare header.
  lemma PrintedTextHashesLikeStructure(md5: string -> string, k: string, g: Graph)
    requires HashesAreWords(md5) && Consistent(md5, g) && CanonicalEntry(k, g)
    ensures AcyclicDefinition(k, g[k].definition)
    ensures FromDefinition(md5, k, g[k].definition) == Ok(g[k].md5sum)
            <==> (g[k].parsed.fields != [] || g[k].parsed.constants != []) && !EndsInBareHeader(k, g)
    ensures g[k].parsed.fields == [] && g[k].parsed.constants == [] ==>
              FromDefinition(md5, k, g[k].definition) in {Err(EmptyDefinition), Err(EmptyRoot)}
    ensures (g[k].parsed.fields != [] || g[k].parsed.constants != []) && EndsInBareHeader(k, g) ==>
              FromDefinition(md5, k, g[k].definition).Err? && FromDefinition(md5, k, g[k].definition).error.NoBody?
  {
    hide Acyclic, Consistent, Canonical, Clean, References, SubMessages, Ends, EndsInBareHeader, Hash, Md5Sum;
    ConsistentIsAcyclic(md5, g);
    PrintedDefinitionIsAcyclic(md5, k, g);
    if g[k].parsed.fields != [] || g[k].parsed.constants != [] {
      ReadDefinition(md5, k, g);
      if !EndsInBareHeader(k, g) {
        TranscriptIsTranscribed(md5, k, g);
        TranscribedIsAcyclic(Transcript(k, g), LibraryOf(g));
        HashAgrees(md5, k, Transcript(k, g), LibraryOf(g));
        StoredDefinition(md5, k, g);
      }
    }
  }

  lemma ConsistentIsAcyclic(md5: string -> string, g: Graph)
    requires Consistent(md5, g)
    ensures Acyclic(LibraryOf(g))
  {
  }
}
