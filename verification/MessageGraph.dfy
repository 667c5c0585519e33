// What code generation computes for a message once its dependencies are known
// (`MessageFile` in roslibrust_codegen/src/lib.rs): the md5 sum over the parsed
// structure, the referenced types, the expanded definition and the fixed-length flag.
// MD5 itself is the parameter `md5`.
module MessageGraph {
  import opened Wrappers
  import opened Messages
  import opened Libraries
  import opened StringOrder
  import opened Text

  datatype MessageFile = MessageFile(
    parsed: ParsedMessage,
    md5sum: string,
    definition: string,
    isFixedLength: bool)

  type Graph = map<string, MessageFile>

  function LibraryOf(g: Graph): Library { map k | k in g :: g[k].parsed }

  /******* md5 sum of the parsed structure *******/

  function ConstantLines(constants: seq<ConstantInfo>): string {
    if constants == [] then ""
    else
      var c := constants[0];
      c.constantType + " " + c.constantName + "=" + c.constantValue + "\n" + ConstantLines(constants[1..])
  }

  function ShowFieldType(t: FieldType): string {
    match t.arrayInfo
    case FixedLength(n) => t.fieldType + "[" + ShowNat(n) + "]"
    case Unbounded => t.fieldType + "[]"
    case NotArray => t.fieldType
    case Bounded(n) => t.fieldType + "[<=" + ShowNat(n) + "]"
  }

  // The field lines: a printed type, or the md5 sum of the message that the field holds.
  function FieldLines(md5: string -> string, version: RosVersion, fields: seq<FieldInfo>, lib: Library): Option<string>
    requires Acyclic(lib)
    decreases Level(fields, lib), |fields|
  {
    if fields == [] then Some("")
    else
      var f := fields[0];
      var key := FullTypeName(f);
      if IsIntrinsic(version, f.fieldType.fieldType) then
        match FieldLines(md5, version, fields[1..], lib)
        case None => None
        case Some(rest) => Some(ShowFieldType(f.fieldType) + " " + f.fieldName + "\n" + rest)
      else if key !in lib then None
      else
        LevelOfEntry(key, lib);
        match FieldLines(md5, VersionOf(lib[key]), lib[key].fields, lib)
        case None => None
        case Some(lines) =>
          match FieldLines(md5, version, fields[1..], lib)
          case None => None
          case Some(rest) => Some(HashContent(md5, lib[key], lines) + " " + f.fieldName + "\n" + rest)
  }

  function HashContent(md5: string -> string, p: ParsedMessage, fieldLines: string): string {
    md5(TrimEnd(ConstantLines(p.constants) + fieldLines))
  }

  function Md5Sum(md5: string -> string, p: ParsedMessage, lib: Library): Option<string>
    requires Acyclic(lib)
  {
    match FieldLines(md5, VersionOf(p), p.fields, lib)
    case None => None
    case Some(lines) => Some(HashContent(md5, p, lines))
  }

  /******* referenced types *******/

  function UniqueTypes(version: RosVersion, fields: seq<FieldInfo>, lib: Library): (r: Option<set<string>>)
    requires Acyclic(lib)
    ensures r.Some? ==> r.value <= lib.Keys
    decreases Level(fields, lib), |fields|
  {
    if fields == [] then Some({})
    else if IsIntrinsic(version, fields[0].fieldType.fieldType) then UniqueTypes(version, fields[1..], lib)
    else
      var key := FullTypeName(fields[0]);
      if key !in lib then None
      else
        LevelOfEntry(key, lib);
        match UniqueTypes(VersionOf(lib[key]), lib[key].fields, lib)
        case None => None
        case Some(sub) =>
          match UniqueTypes(version, fields[1..], lib)
          case None => None
          case Some(rest) => Some({key} + sub + rest)
  }

  function ReferencedTypes(p: ParsedMessage, lib: Library): (r: Option<set<string>>)
    requires Acyclic(lib)
    ensures r.Some? ==> r.value <= lib.Keys
  {
    UniqueTypes(VersionOf(p), p.fields, lib)
  }

  /******* expanded definition *******/

  function Section(name: string, definition: string): string {
    SEPARATOR + "MSG: " + name + "\n" + Trim(definition) + "\n"
  }

  // The sections that the types in `names` contribute, from the definitions stored with them.
  function StoredSections(names: seq<string>, g: Graph): string
    requires forall k <- names :: k in g
  {
    if names == [] then ""
    else Section(FullName(g[names[0]].parsed), g[names[0]].definition) + StoredSections(names[1..], g)
  }

  function FullDefinition(p: ParsedMessage, g: Graph): Option<string>
    requires Acyclic(LibraryOf(g))
  {
    match ReferencedTypes(p, LibraryOf(g))
    case None => None
    case Some(types) =>
      var content := Trim(p.source) + "\n" + StoredSections(Sorted(types), g);
      Some(content[..|content| - 1])
  }

  /******* fixed length *******/

  predicate IsDynamicArray(a: ArrayType) { a.Unbounded? || a.Bounded? }

  function FixedLengthFields(fields: seq<FieldInfo>, lib: Library): Option<bool>
    requires Acyclic(lib)
    decreases Level(fields, lib), |fields|
  {
    if fields == [] then Some(true)
    else
      var t := fields[0].fieldType;
      var key := FullTypeName(fields[0]);
      if IsDynamicArray(t.arrayInfo) then Some(false)
      else if t.packageName.None? then
        if t.fieldType == "string" then Some(false) else FixedLengthFields(fields[1..], lib)
      else if key !in lib then None
      else
        LevelOfEntry(key, lib);
        match FixedLengthFields(lib[key].fields, lib)
        case None => None
        case Some(false) => Some(false)
        case Some(true) => FixedLengthFields(fields[1..], lib)
  }

  function IsFixedLength(p: ParsedMessage, lib: Library): Option<bool>
    requires Acyclic(lib)
  {
    FixedLengthFields(p.fields, lib)
  }

  /******* resolution of one message *******/

  function Resolve(md5: string -> string, p: ParsedMessage, g: Graph): Option<MessageFile>
    requires Acyclic(LibraryOf(g))
  {
    var lib := LibraryOf(g);
    match (Md5Sum(md5, p, lib), FullDefinition(p, g), IsFixedLength(p, lib))
    case (Some(sum), Some(definition), Some(fixed)) => Some(MessageFile(p, sum, definition, fixed))
    case _ => None
  }
}
