// The md5 sum of an expanded message definition (roslibrust_common/src/md5sum.rs): the text
// is cut into sections, each section is cleaned, and the cleaned sections are hashed
// recursively with a cache of the hashes found so far.
module DefinitionMd5 {
  import opened Wrappers
  import opened Text

  // `NoTypeName` stands for the failing index on a header line without a second word.
  datatype Md5Error =
    | EmptyDefinition
    | EmptyRoot
    | EmptySection
    | BadSection(section: string)
    | NoTypeName(section: string)
    | NoBody(section: string)
    | UnknownType(name: string)
    | BadLine(line: string)

  const BASE_TYPES: seq<string> := [
    "bool", "byte", "int8", "int16", "int32", "int64", "uint8", "uint16", "uint32",
    "uint64", "float32", "float64", "time", "duration", "string"]

  predicate IsBaseType(t: string) { t in BASE_TYPES }

  /******* cleaning *******/

  // One line without comments and superfluous whitespace; empty when nothing is left.
  function CleanLine(raw: string): string {
    var line := Trim(raw);
    if StartsWith(line, "#") then ""
    else Replace(Join(SplitWhitespace(Trim(SplitOn(line, '#')[0])), " "), " = ", "=")
  }

  function ConstantLine(line: string): seq<string> { if line != "" && '=' in line then [line] else [] }

  function ParamLine(line: string): seq<string> { if line != "" && '=' !in line then [line] else [] }

  function CleanConstants(lines: seq<string>): seq<string> {
    if lines == [] then []
    else
      ConstantLine(CleanLine(lines[0])) + CleanConstants(lines[1..])
  }

  function CleanParams(lines: seq<string>): seq<string> {
    if lines == [] then []
    else
      ParamLine(CleanLine(lines[0])) + CleanParams(lines[1..])
  }

  function Assemble(constants: seq<string>, params: seq<string>): string {
    Trim(Join(constants, "\n") + "\n" + Join(params, "\n"))
  }

  // The cleaned message: constants first, then fields.
  function Clean(msg: string): string {
    Assemble(CleanConstants(Lines(msg)), CleanParams(Lines(msg)))
  }

  lemma CleanStep(lines: seq<string>, i: nat, constants: seq<string>, params: seq<string>)
    requires i < |lines|
    ensures constants + CleanConstants(lines[i..])
            == constants + ConstantLine(CleanLine(lines[i])) + CleanConstants(lines[i + 1..])
    ensures params + CleanParams(lines[i..]) == params + ParamLine(CleanLine(lines[i])) + CleanParams(lines[i + 1..])
  {
    hide CleanLine;
    assert lines[i..][1..] == lines[i + 1..];
  }

  lemma CleanEnd(lines: seq<string>)
    ensures CleanConstants(lines[|lines|..]) == [] && CleanParams(lines[|lines|..]) == []
  {
  }

  method CleanMsg(msg: string) returns (r: string)
    ensures r == Clean(msg)
  {
    hide Trim, SplitWhitespace, SplitOn, Replace, Join, Lines, CleanConstants, CleanParams;
    var constants, params := [], [];
    var lines := Lines(msg);
    assert lines[0..] == lines;
    for i := 0 to |lines|
      invariant CleanConstants(lines) == constants + CleanConstants(lines[i..])
      invariant CleanParams(lines) == params + CleanParams(lines[i..])
    {
      CleanStep(lines, i, constants, params);
      var line := Trim(lines[i]);
      if StartsWith(line, "#") {
        continue;
      }
      line := Trim(SplitOn(line, '#')[0]);
      line := Join(SplitWhitespace(line), " ");
      line := Replace(line, " = ", "=");
      if line == "" {
        continue;
      }
      if '=' in line {
        constants := constants + [line];
      } else {
        params := params + [line];
      }
    }
    CleanEnd(lines);
    assert constants + [] == constants && params + [] == params;
    r := Trim(Join(constants, "\n") + "\n" + Join(params, "\n"));
  }

  /******* the recursion over the sections *******/

  type Sections = map<string, string>

  // The type of a line, without array brackets, as a key of the sections; base types have none.
  function Dependency(line: string, package: string): Option<string> {
    var tokens := SplitWhitespace(line);
    if |tokens| < 2 then None
    else
      var fieldType := SplitOn(tokens[0], '[')[0];
      if IsBaseType(fieldType) then None
      else if fieldType == "Header" then Some("std_msgs/Header")
      else if '/' !in fieldType then Some(package + "/" + fieldType)
      else Some(fieldType)
  }

  function PackageOf(name: string): string { SplitOn(name, '/')[0] }

  // No chain of more than `n` references starts at the section: the recursion from it ends.
  ghost predicate EndsWithin(name: string, defs: Sections, n: nat)
    decreases n
  {
    name in defs ==>
      forall line <- Lines(defs[name]) | Dependency(line, PackageOf(name)).Some? ::
        n > 0 && EndsWithin(Dependency(line, PackageOf(name)).value, defs, n - 1)
  }

  // Sections that `name` does not reach may refer to themselves.
  ghost predicate Ends(name: string, defs: Sections) { exists n: nat :: EndsWithin(name, defs, n) }

  // The length of the longest chain of references.
  ghost function Height(name: string, defs: Sections): (n: nat)
    requires Ends(name, defs)
    ensures EndsWithin(name, defs, n) && forall m: nat | EndsWithin(name, defs, m) :: n <= m
  {
    var n: nat :| EndsWithin(name, defs, n);
    LeastEnd(name, defs, 0, n)
  }

  ghost function LeastEnd(name: string, defs: Sections, low: nat, high: nat): (n: nat)
    requires low <= high && EndsWithin(name, defs, high) && forall m: nat | m < low :: !EndsWithin(name, defs, m)
    ensures EndsWithin(name, defs, n) && forall m: nat | EndsWithin(name, defs, m) :: n <= m
    decreases high - low
  {
    if EndsWithin(name, defs, low) then low else LeastEnd(name, defs, low + 1, high)
  }

  ghost predicate LinesOf(lines: seq<string>, name: string, defs: Sections)
    requires Ends(name, defs)
  {
    forall line <- lines | Dependency(line, PackageOf(name)).Some? ::
      var d := Dependency(line, PackageOf(name)).value;
      Ends(d, defs) && Height(d, defs) < Height(name, defs)
  }

  lemma SectionLines(name: string, defs: Sections)
    requires Ends(name, defs) && name in defs
    ensures LinesOf(Lines(defs[name]), name, defs)
  {
    hide Dependency, PackageOf, Lines;
    var n := Height(name, defs);
    forall line <- Lines(defs[name]) | Dependency(line, PackageOf(name)).Some?
      ensures var d := Dependency(line, PackageOf(name)).value; Ends(d, defs) && Height(d, defs) < n
    {
      assert EndsWithin(Dependency(line, PackageOf(name)).value, defs, n - 1);
    }
  }

  lemma {:induction false} EndsLater(name: string, defs: Sections, n: nat, m: nat)
    requires EndsWithin(name, defs, n) && n <= m
    ensures EndsWithin(name, defs, m)
    decreases n
  {
    hide Dependency, PackageOf, Lines;
    if name in defs {
      forall line <- Lines(defs[name]) | Dependency(line, PackageOf(name)).Some?
        ensures m > 0 && EndsWithin(Dependency(line, PackageOf(name)).value, defs, m - 1)
      {
        EndsLater(Dependency(line, PackageOf(name)).value, defs, n - 1, m - 1);
      }
    }
  }

  /******* sections that are ranked *******/

  ghost predicate LinesBelow(lines: seq<string>, package: string, defs: Sections, rank: map<string, nat>, bound: nat) {
    forall line <- lines | Dependency(line, package).Some? ::
      var d := Dependency(line, package).value;
      d in defs && d in rank ==> rank[d] < bound
  }

  ghost predicate RanksSections(defs: Sections, rank: map<string, nat>) {
    && defs.Keys <= rank.Keys
    && forall name <- defs.Keys :: LinesBelow(Lines(defs[name]), PackageOf(name), defs, rank, rank[name])
  }

  // No section refers to itself through the types of its lines.
  ghost predicate AcyclicSections(defs: Sections) {
    forall name: string :: Ends(name, defs)
  }

  lemma {:induction false} RankedEnds(name: string, defs: Sections, rank: map<string, nat>)
    requires RanksSections(defs, rank)
    ensures EndsWithin(name, defs, if name in defs then rank[name] + 1 else 0)
    decreases if name in defs then rank[name] + 1 else 0
  {
    hide Dependency, PackageOf, Lines;
    if name in defs {
      forall line <- Lines(defs[name]) | Dependency(line, PackageOf(name)).Some?
        ensures EndsWithin(Dependency(line, PackageOf(name)).value, defs, rank[name])
      {
        var d := Dependency(line, PackageOf(name)).value;
        assert LinesBelow(Lines(defs[name]), PackageOf(name), defs, rank, rank[name]);
        RankedEnds(d, defs, rank);
        EndsLater(d, defs, if d in defs then rank[d] + 1 else 0, rank[name]);
      }
    }
  }

  lemma RankedIsAcyclic(defs: Sections, rank: map<string, nat>)
    requires RanksSections(defs, rank)
    ensures AcyclicSections(defs)
  {
    hide EndsWithin;
    forall name: string ensures Ends(name, defs) {
      RankedEnds(name, defs, rank);
      var n: nat := if name in defs then rank[name] + 1 else 0;
      assert EndsWithin(name, defs, n);
    }
  }

  /******* hashing without a cache *******/

  // The hash of a section, computed without a cache.
  function Hash(md5: string -> string, name: string, defs: Sections): Result<string, Md5Error>
    requires Ends(name, defs)
    decreases Height(name, defs), 1, 0
  {
    if name !in defs then Err(UnknownType(name))
    else
      SectionLines(name, defs);
      match HashLines(md5, Lines(defs[name]), name, defs)
      case Err(e) => Err(e)
      case Ok(content) => Ok(md5(TrimEnd(Trim(content))))
  }

  function HashLines(md5: string -> string, lines: seq<string>, name: string, defs: Sections): Result<string, Md5Error>
    requires Ends(name, defs) && name in defs && LinesOf(lines, name, defs)
    decreases Height(name, defs), 0, |lines|
  {
    if lines == [] then Ok("")
    else
      match HashLine(md5, lines[0], name, defs)
      case Err(e) => Err(e)
      case Ok(line) =>
        match HashLines(md5, lines[1..], name, defs)
        case Err(e) => Err(e)
        case Ok(rest) => Ok(line + "\n" + rest)
  }

  // A line with its type replaced by the hash of that type.
  function HashLine(md5: string -> string, line: string, name: string, defs: Sections): Result<string, Md5Error>
    requires Ends(name, defs) && name in defs && LinesOf([line], name, defs)
    decreases Height(name, defs), 0, 0
  {
    var tokens := SplitWhitespace(line);
    if |tokens| < 2 then Err(BadLine(line))
    else
      match Dependency(line, PackageOf(name))
      case None => Ok(line)
      case Some(d) =>
        assert line in [line] && tokens[0] in tokens;
        match Hash(md5, d, defs)
        case Err(e) => Err(e)
        case Ok(hash) => Ok(Replace(line, tokens[0], hash))
  }

  /******* the recursion with its cache *******/

  type Hashes = map<string, string>

  ghost predicate CacheValid(md5: string -> string, hashes: Hashes, defs: Sections) {
    forall name <- hashes.Keys :: Ends(name, defs) && Hash(md5, name, defs) == Ok(hashes[name])
  }

  ghost predicate CacheExtends(hashes: Hashes, hashes': Hashes) {
    forall name <- hashes.Keys :: name in hashes' && hashes'[name] == hashes[name]
  }

  function After(content: string, rest: Result<string, Md5Error>): Result<string, Md5Error> {
    match rest
    case Err(e) => Err(e)
    case Ok(r) => Ok(content + r)
  }

  lemma HashLinesStep(md5: string -> string, lines: seq<string>, i: nat, content: string, name: string, defs: Sections)
    requires Ends(name, defs) && name in defs && i < |lines| && LinesOf(lines, name, defs)
    ensures LinesOf([lines[i]], name, defs) && LinesOf(lines[i..], name, defs) && LinesOf(lines[i + 1..], name, defs)
    ensures match HashLine(md5, lines[i], name, defs)
            case Err(e) => After(content, HashLines(md5, lines[i..], name, defs)) == Err(e)
            case Ok(line) =>
              After(content, HashLines(md5, lines[i..], name, defs))
              == After(content + (line + "\n"), HashLines(md5, lines[i + 1..], name, defs))
  {
    hide Ends, HashLine, Dependency, PackageOf;
    assert lines[i..][1..] == lines[i + 1..];
    if HashLine(md5, lines[i], name, defs).Ok? && HashLines(md5, lines[i + 1..], name, defs).Ok? {
      var line := HashLine(md5, lines[i], name, defs).value + "\n";
      var rest := HashLines(md5, lines[i + 1..], name, defs).value;
      assert content + (line + rest) == content + line + rest;
    }
  }

  // Remembering the hashes found so far does not change the result, and every remembered
  // hash is the hash of its type.
  method HashWithCache(md5: string -> string, name: string, defs: Sections, cache: Hashes)
    returns (r: Result<string, Md5Error>, hashes: Hashes)
    requires Ends(name, defs) && CacheValid(md5, cache, defs)
    ensures r == Hash(md5, name, defs)
    ensures CacheValid(md5, hashes, defs) && CacheExtends(cache, hashes)
    ensures r.Ok? ==> name in hashes
    decreases Height(name, defs), 1
  {
    hide Ends, HashLines, Lines, Trim, TrimEnd, LinesOf, PackageOf;
    hashes := cache;
    if name !in defs {
      return Err(UnknownType(name)), hashes;
    }
    SectionLines(name, defs);
    var lines := Lines(defs[name]);
    var content := "";
    assert lines[0..] == lines;
    AfterNothing(HashLines(md5, lines, name, defs));
    for i := 0 to |lines|
      invariant LinesOf(lines[i..], name, defs)
      invariant CacheValid(md5, hashes, defs) && CacheExtends(cache, hashes)
      invariant HashLines(md5, lines, name, defs) == After(content, HashLines(md5, lines[i..], name, defs))
    {
      HashLinesStep(md5, lines, i, content, name, defs);
      var line, hashes' := HashLineWithCache(md5, lines[i], name, defs, hashes);
      hashes := hashes';
      if line.Err? {
        return Err(line.error), hashes;
      }
      content := content + (line.value + "\n");
    }
    AfterAllLines(md5, lines, content, name, defs);
    var hash := md5(TrimEnd(Trim(content)));
    r := Ok(hash);
    hashes := hashes[name := hash];
  }

  lemma AfterNothing(rest: Result<string, Md5Error>)
    ensures After("", rest) == rest
  {
    if rest.Ok? { assert "" + rest.value == rest.value; }
  }

  lemma AfterAllLines(md5: string -> string, lines: seq<string>, content: string, name: string, defs: Sections)
    requires Ends(name, defs) && name in defs && LinesOf(lines[|lines|..], name, defs)
    ensures After(content, HashLines(md5, lines[|lines|..], name, defs)) == Ok(content)
  {
    assert content + "" == content;
  }

  method HashLineWithCache(md5: string -> string, line: string, name: string, defs: Sections, cache: Hashes)
    returns (r: Result<string, Md5Error>, hashes: Hashes)
    requires Ends(name, defs) && CacheValid(md5, cache, defs) && name in defs && LinesOf([line], name, defs)
    ensures r == HashLine(md5, line, name, defs)
    ensures CacheValid(md5, hashes, defs) && CacheExtends(cache, hashes)
    decreases Height(name, defs), 0
  {
    hide Ends, Hash, Dependency, SplitWhitespace;
    hashes := cache;
    var tokens := SplitWhitespace(line);
    if |tokens| < 2 {
      return Err(BadLine(line)), hashes;
    }
    var dependency := Dependency(line, PackageOf(name));
    if dependency.None? {
      return Ok(line), hashes;
    }
    assert line in [line] && tokens[0] in tokens;
    if dependency.value in hashes {
      return Ok(Replace(line, tokens[0], hashes[dependency.value])), hashes;
    }
    var hash, hashes' := HashWithCache(md5, dependency.value, defs, hashes);
    hashes := hashes';
    if hash.Err? {
      return Err(hash.error), hashes;
    }
    r := Ok(Replace(line, tokens[0], hash.value));
  }

  /******* the whole definition *******/

  // The type and the cleaned body of a section after the first.
  function ReadSection(section: string): Result<(string, string), Md5Error> {
    var lines := Lines(section);
    if lines == [] then Err(EmptySection)
    else if !StartsWith(lines[0], "MSG: ") then Err(BadSection(section))
    else
      var words := SplitWhitespace(lines[0]);
      var endOfFirstLine := IndexOf(section, '\n');
      if |words| < 2 then Err(NoTypeName(section))
      else if endOfFirstLine == |section| then Err(NoBody(section))
      else Ok((words[1], Clean(section[endOfFirstLine + 1..])))
  }

  // A later section replaces an earlier one of the same type, the root included.
  function AddSections(sections: seq<string>, defs: Sections): Result<Sections, Md5Error> {
    if sections == [] then Ok(defs)
    else
      match ReadSection(sections[0])
      case Err(e) => Err(e)
      case Ok((name, body)) => AddSections(sections[1..], defs[name := body])
  }

  function SubMessages(name: string, fullDefinition: string): Result<Sections, Md5Error> {
    if fullDefinition == "" then Err(EmptyDefinition)
    else
      var sections := SplitStr(fullDefinition, SEPARATOR);
      var root := Clean(sections[0]);
      if root == "" then Err(EmptyRoot) else AddSections(sections[1..], map[name := root])
  }

  // The root does not reach a section that refers to itself. Otherwise the recursion has no
  // end, unless a bad line stops it before.
  ghost predicate AcyclicDefinition(name: string, fullDefinition: string) {
    SubMessages(name, fullDefinition).Ok? ==> Ends(name, SubMessages(name, fullDefinition).value)
  }

  ghost function FromDefinition(md5: string -> string, name: string, fullDefinition: string): Result<string, Md5Error>
    requires AcyclicDefinition(name, fullDefinition)
  {
    match SubMessages(name, fullDefinition)
    case Err(e) => Err(e)
    case Ok(defs) => Hash(md5, name, defs)
  }

  method FromMessageDefinition(md5: string -> string, name: string, fullDefinition: string)
    returns (r: Result<string, Md5Error>)
    requires AcyclicDefinition(name, fullDefinition)
    ensures r == FromDefinition(md5, name, fullDefinition)
  {
    hide ReadSection, Hash, Ends, SplitStr;
    if fullDefinition == "" {
      return Err(EmptyDefinition);
    }
    var sections := SplitStr(fullDefinition, SEPARATOR);
    var root := CleanMsg(sections[0]);
    if root == "" {
      return Err(EmptyRoot);
    }
    var defs := map[name := root];
    for i := 1 to |sections|
      invariant AddSections(sections[1..], map[name := root]) == AddSections(sections[i..], defs)
    {
      assert sections[i..][1..] == sections[i + 1..];
      match ReadSection(sections[i]) {
        case Err(e) => return Err(e);
        case Ok((sectionType, body)) => defs := defs[sectionType := body];
      }
    }
    assert SubMessages(name, fullDefinition) == Ok(defs);
    var hashes;
    r, hashes := HashWithCache(md5, name, defs, map[]);
  }
}
