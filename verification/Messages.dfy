// The parsed form of ROS message files (roslibrust_codegen/src/lib.rs and
// roslibrust_codegen/src/parse/msg.rs): what is known about one file before
// the types it mentions are looked up.
module Messages {
  import opened Wrappers

  datatype RosVersion = Ros1 | Ros2

  datatype ArrayType = NotArray | FixedLength(size: nat) | Bounded(bound: nat) | Unbounded

  datatype FieldType = FieldType(
    packageName: Option<string>,
    sourcePackage: string,
    fieldType: string,
    arrayInfo: ArrayType,
    stringCapacity: Option<nat>)

  datatype FieldInfo = FieldInfo(fieldType: FieldType, fieldName: string)

  datatype ConstantInfo = ConstantInfo(constantType: string, constantName: string, constantValue: string)

  // `directory` is the name of the folder that holds the file ("msg", "srv", ...).
  datatype ParsedMessage = ParsedMessage(
    name: string,
    package: string,
    fields: seq<FieldInfo>,
    constants: seq<ConstantInfo>,
    version: Option<RosVersion>,
    source: string,
    directory: string)

  const PRIMITIVES: seq<string> := [
    "bool", "int8", "uint8", "byte", "char", "int16", "uint16", "int32", "uint32", "int64",
    "uint64", "float32", "float64", "string", "wstring", "time", "duration"]

  // The resolver's test: the same list for both ROS versions.
  predicate IsPrimitive(t: string) { t in PRIMITIVES }

  // The hasher's test: the ROS1 table has no wide strings.
  predicate IsIntrinsic(version: RosVersion, t: string) {
    IsPrimitive(t) && (version.Ros1? ==> t != "wstring")
  }

  function VersionOf(p: ParsedMessage): RosVersion {
    if p.version.Some? then p.version.value else Ros1
  }

  function FullName(p: ParsedMessage): string { p.package + "/" + p.name }

  function FullTypeName(f: FieldInfo): string {
    (if f.fieldType.packageName.Some? then f.fieldType.packageName.value else f.fieldType.sourcePackage)
    + "/" + f.fieldType.fieldType
  }

  // A file that could be called `string.msg` or `int8.msg`.
  ghost predicate NamedAfterPrimitive(fullName: string) {
    exists prefix, t :: IsPrimitive(t) && fullName == prefix + "/" + t
  }

  // The parser leaves the package out only for types that the hasher treats as intrinsic.
  predicate PackagesKnown(p: ParsedMessage) {
    forall f <- p.fields :: f.fieldType.packageName.None? ==> IsIntrinsic(VersionOf(p), f.fieldType.fieldType)
  }

  // The field types on which the resolver, the hasher and the length check agree:
  // a package is given exactly when the type is not primitive, and ROS1 has no wide strings.
  predicate PlainField(version: RosVersion, f: FieldInfo) {
    (f.fieldType.packageName.None? <==> IsPrimitive(f.fieldType.fieldType))
    && (version.Ros1? ==> f.fieldType.fieldType != "wstring")
  }

  predicate PlainFields(p: ParsedMessage) {
    forall f <- p.fields :: PlainField(VersionOf(p), f)
  }
}
