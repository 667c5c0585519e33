// What the md5 sum of a text does where its canonical form stops: why the agreement with the
// structure needs its conditions.
module Md5Conditions {
  import opened Wrappers
  import opened Text
  import opened TextProperties
  import opened Messages
  import opened DefinitionMd5
  import opened CanonicalLines
  import opened PrintedDefinition
  import opened HashAgreement

  // The text hasher knows the intrinsic types of ROS1 but one.
  lemma BaseTypesAreIntrinsic(t: string)
    ensures IsBaseType(t) <==> IsIntrinsic(Ros1, t) && t != "char"
  {
  }

  // `char` is intrinsic for the parser, but the text hasher takes it for a message of the package.
  lemma CharIsNoBaseType(name: string, package: string)
    requires IsToken(name)
    ensures IsIntrinsic(Ros1, "char")
    ensures Dependency("char " + name, package) == Some(package + "/char")
  {
    assert IsSpace(' ') && IsToken("char");
    CharIsUnknown();
    hide IsSpace, IsBaseType, IsIntrinsic;
    assert "char " + name == "char" + (" " + name);
    WordsOfSpacedToken("char", " " + name);
    WordsAfterSpace(' ', name);
    TokenWords(name);
    assert [' '] + name == " " + name;
    SplitOnFirst("char", '[', "");
    assert |"char"| == 4 && |"Header"| == 6;
    var tokens := SplitWhitespace("char " + name);
    assert tokens == ["char", name] && tokens[0] == "char";
    assert package + "/" + "char" == package + "/char";
    hide SplitWhitespace, SplitOn;
  }

  lemma CharIsUnknown()
    ensures IsIntrinsic(Ros1, "char") && !IsBaseType("char") && '/' !in "char" && '[' !in "char"
  {
  }

  // The type is replaced wherever it occurs in the line, in the name of the field as well.
  lemma TypeInNameIsReplaced(typeName: string, before: string, after: string, hash: string)
    requires IsToken(typeName) && !Contains(after, typeName)
    requires forall j | 0 <= j < |" " + before| :: !OccursAt(" " + before + typeName + after, typeName, j)
    ensures Replace(typeName + " " + before + typeName + after, typeName, hash)
            == hash + " " + before + hash + after
  {
    assert typeName != "";
    hide Replace, Contains, OccursAt, IsToken, SplitStr;
    var middle := " " + before;
    var rest := middle + typeName + after;
    Regrouped(typeName, before, after);
    ReplaceFirst("", typeName, rest, hash);
    ReplaceFirst(middle, typeName, after, hash);
    ReplaceNothing(after, typeName, hash);
    Regrouped(hash, before, after);
  }

  lemma Regrouped(token: string, before: string, after: string)
    ensures forall pat: string ::
              token + " " + before + pat + after == "" + token + (" " + before + pat + after)
  {
    forall pat: string ensures token + " " + before + pat + after == "" + token + (" " + before + pat + after) {
    }
  }

  // A section starts with "MSG: ", the blank included.
  lemma HeaderNeedsItsBlank(name: string, body: string)
    requires IsToken(name)
    ensures ReadSection("MSG: " + name + "\n" + body) == Ok((name, Clean(body)))
    ensures ReadSection("MSG:" + name + "\n" + body) == Err(BadSection("MSG:" + name + "\n" + body))
  {
    hide Clean, SplitWhitespace, Lines, Trim;
    ReadHeader(name, body);
    assert Header(name) + body == "MSG: " + name + "\n" + body;
    var first := "MSG:" + name;
    assert name[0] in name;
    assert first[4] == name[0] && "MSG: "[4] == ' ';
    LinesOfLine(first, body);
    assert first[|first| - 1] == name[|name| - 1] && name[|name| - 1] in name;
    assert IsSpace('\r') && DropCarriageReturn(first) == first;
    assert !StartsWith(first, "MSG: ");
  }

  // Of several sections of one type the last one counts.
  lemma {:induction false} LastSectionCounts(sections: seq<string>, defs: Sections, i: nat)
    requires AddSections(sections, defs).Ok? && i < |sections|
    ensures ReadSection(sections[i]).Ok?
    ensures var (name, body) := ReadSection(sections[i]).value;
            (forall j | i < j < |sections| ::
               ReadSection(sections[j]).Ok? ==> ReadSection(sections[j]).value.0 != name) ==>
              name in AddSections(sections, defs).value && AddSections(sections, defs).value[name] == body
    decreases |sections|
  {
    hide ReadSection;
    var (first, body) := ReadSection(sections[0]).value;
    var rest := sections[1..];
    if i > 0 {
      LastSectionCounts(rest, defs[first := body], i - 1);
      assert forall j | i < j < |sections| :: rest[j - 1] == sections[j];
      assert forall j | i - 1 < j < |rest| :: rest[j] == sections[j + 1];
    } else {
      assert forall j | 0 <= j < |rest| :: rest[j] == sections[j + 1];
      if forall j | 0 < j < |sections| :: ReadSection(sections[j]).Ok? ==> ReadSection(sections[j]).value.0 != first {
        KeptSection(rest, defs[first := body], first);
      }
    }
  }

  lemma {:induction false} KeptSection(sections: seq<string>, defs: Sections, name: string)
    requires AddSections(sections, defs).Ok? && name in defs
    requires forall j | 0 <= j < |sections| :: ReadSection(sections[j]).Ok? ==> ReadSection(sections[j]).value.0 != name
    ensures name in AddSections(sections, defs).value && AddSections(sections, defs).value[name] == defs[name]
    decreases |sections|
  {
    hide ReadSection;
    if sections != [] {
      var (first, body) := ReadSection(sections[0]).value;
      KeptSection(sections[1..], defs[first := body], name);
    }
  }
}
