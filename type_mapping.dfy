/** protoToTSType and isRepeated of generator.go: the (TypeScript type, JSON type)
    pair the generator assigns to a field. */
module TypeMapping {
  import opened GoStrings
  import opened Descriptors
  import opened Naming

  /** The one well-known message type that is not mapped to a generated type. */
  const TimestampTypeName := ".google.protobuf.Timestamp"

  /** isRepeated: the label is present and is LABEL_REPEATED. */
  predicate IsRepeated(f: FieldDescriptor) {
    f.fieldLabel == LabelRepeated
  }

  predicate IsTimestamp(f: FieldDescriptor) {
    f.fieldType == TypeMessage && f.typeName == TimestampTypeName
  }

  /** The three TypeScript primitive type names the mapping produces. */
  predicate IsScalarTSType(s: string) {
    s == "string" || s == "number" || s == "boolean"
  }

  /** protoToTSType: the switch on the field kind, then the "[]" suffix on both names
      for a repeated field. */
  function ProtoToTSType(f: FieldDescriptor): (r: (string, string))
    ensures IsRepeated(f) <==> HasSuffix(r.0, "[]")
    ensures IsRepeated(f) <==> HasSuffix(r.1, "[]")
    ensures f.fieldType != TypeMessage ==> r.0 == r.1
  {
    var base :=
      match f.fieldType
      case TypeDouble | TypeFixed32 | TypeFixed64 | TypeInt32 | TypeInt64 => ("number", "number")
      case TypeString => ("string", "string")
      case TypeBool => ("boolean", "boolean")
      case TypeMessage =>
        if f.typeName == TimestampTypeName then ("Date", "string")
        else (RemovePkg(f.typeName) + "Model", RemovePkg(f.typeName) + "JSON")
      case _ => ("string", "string");
    if IsRepeated(f) then (base.0 + "[]", base.1 + "[]") else base
  }

  /** The mapping of a field as if it were not repeated. */
  function Singular(f: FieldDescriptor): FieldDescriptor {
    if IsRepeated(f) then f.(fieldLabel := LabelOptional) else f
  }

  /** A repeated field gets exactly one "[]" on each name, after the base mapping. */
  lemma RepeatedAppendsMarkerOnce(f: FieldDescriptor)
    requires IsRepeated(f)
    ensures ProtoToTSType(f).0 == ProtoToTSType(Singular(f)).0 + "[]"
    ensures ProtoToTSType(f).1 == ProtoToTSType(Singular(f)).1 + "[]"
    ensures !HasSuffix(ProtoToTSType(Singular(f)).0, "[]")
  {
  }

  /** Every kind except message maps to one of the three primitive names, the same on
      both sides. */
  lemma NonMessageKindsAreScalar(f: FieldDescriptor)
    requires f.fieldType != TypeMessage
    ensures var r := ProtoToTSType(Singular(f));
      IsScalarTSType(r.0) && r.0 == r.1
    ensures f.fieldType in {TypeDouble, TypeFixed32, TypeFixed64, TypeInt32, TypeInt64} ==>
      ProtoToTSType(Singular(f)) == ("number", "number")
    ensures f.fieldType == TypeBool ==> ProtoToTSType(Singular(f)) == ("boolean", "boolean")
    ensures f.fieldType !in {TypeDouble, TypeFixed32, TypeFixed64, TypeInt32, TypeInt64, TypeBool} ==>
      ProtoToTSType(Singular(f)) == ("string", "string")
  {
  }

  /** Timestamp becomes a Date in memory and its RFC 3339 string on the wire. */
  lemma TimestampMapsToDate(f: FieldDescriptor)
    requires IsTimestamp(f)
    ensures ProtoToTSType(Singular(f)) == ("Date", "string")
  {
  }

  /** Any other message reference maps to the generated interfaces of the message it
      names, stripped of its package: XModel and XJSON. */
  lemma MessageMapsToGeneratedTypes(f: FieldDescriptor)
    requires f.fieldType == TypeMessage && !IsTimestamp(f)
    ensures var x := RemovePkg(f.typeName);
      ProtoToTSType(Singular(f)) == (x + "Model", x + "JSON") && '.' !in x
  {
  }
}
