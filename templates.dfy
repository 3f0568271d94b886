/** template.go: the records the templates are executed on and the helper functions
    the templates call to spell names and converter expressions. */
module Templates {
  import opened GoStrings
  import opened Descriptors
  import opened Naming
  import TM = TypeMapping

  datatype ImportValues = ImportValues(name: string, path: string)

  datatype EnumKeyVal = EnumKeyVal(name: string, value: int32)

  datatype EnumValues = EnumValues(name: string, values: seq<EnumKeyVal>)

  datatype ServiceMethodValues = ServiceMethodValues(name: string, path: string, inputType: string, outputType: string)

  datatype ServiceValues = ServiceValues(name: string, package: string, methods: seq<ServiceMethodValues>)

  /** A message field: its proto name, its TypeScript type, its JSON type and whether
      it is repeated. */
  datatype FieldValues = FieldValues(name: string, tsType: string, jsonType: string, isRepeated: bool)

  /** A message: `name` is the class, `tsType` the model interface, `jsonType` the JSON
      interface. */
  datatype MessageValues = MessageValues(name: string, tsType: string, jsonType: string, fields: seq<FieldValues>)

  /** One output file, imports keyed by the imported file's name. */
  datatype ProtoFile = ProtoFile(
    messages: seq<MessageValues>,
    services: seq<ServiceValues>,
    enums: seq<EnumValues>,
    imports: map<string, ImportValues>)

  /** The converter the message template declares for the model interface
      (`{{.Type}}ToJSON`). */
  function DeclaredToJSON(mv: MessageValues): string {
    mv.tsType + "ToJSON"
  }

  /** The converter the message template declares for the JSON interface
      (`JSONTo{{.Name}}`). */
  function DeclaredFromJSON(mv: MessageValues): string {
    "JSONTo" + mv.name
  }

  /** methodName: the first character lower-cased, the rest as it is. */
  function MethodName(name: string): (r: string)
    requires name != ""
    ensures |r| == |name|
    ensures r[0] == ToLowerChar(name[0])
    ensures r[1..] == name[1..]
  {
    ToLower(name[..1]) + name[1..]
  }

  lemma MethodNameIdempotent(name: string)
    requires name != ""
    ensures MethodName(MethodName(name)) == MethodName(name)
  {
    var r := MethodName(name);
    var rr := MethodName(r);
    assert rr[0] == r[0];
    assert rr[1..] == r[1..];
  }

  /** argumentName: '_' and the name-cased unqualified name. */
  function ArgumentName(name: string): (r: string)
    requires RemovePkg(name) != ""
    ensures |r| == |RemovePkg(name)| + 1
    ensures r[0] == '_' && r[1..] == MethodName(RemovePkg(name))
    ensures '.' !in r[2..]
  {
    "_" + MethodName(RemovePkg(name))
  }

  /** A qualifier in front of a service's input type does not change the argument's
      name. */
  lemma ArgumentNameIgnoresQualifier(qualifier: string, name: string)
    requires name != "" && '.' !in name
    ensures ArgumentName(qualifier + "." + name) == ArgumentName(name)
  {
    RemovePkgOfQualified(qualifier, name);
  }

  /** modelName: the model interface of a message. */
  function ModelName(name: string): (r: string)
    ensures HasSuffix(r, "Model") && HasPrefix(r, name) && |r| == |name| + 5
  {
    name + "Model"
  }

  /** jsonName: JSON keys are the proto field names. */
  function JsonName(name: string): (r: string)
    ensures r == name
  {
    name
  }

  /** jsonType: a model interface "XModel" (or an array "XModel[]") becomes the JSON
      interface "XJSON" ("XJSON[]"); any other type is its own JSON type. */
  function JsonType(name: string): (r: string)
    ensures HasSuffix(name, "Model[]") ==> HasSuffix(r, "JSON[]") && |r| == |name| - 1 && r[..|r| - 6] == name[..|name| - 7]
    ensures !HasSuffix(name, "Model[]") && HasSuffix(name, "Model") ==> HasSuffix(r, "JSON") && |r| == |name| - 1 && r[..|r| - 4] == name[..|name| - 5]
    ensures !HasSuffix(name, "Model[]") && !HasSuffix(name, "Model") ==> r == name
  {
    if HasSuffix(name, "Model[]") then name[..|name| - 7] + "JSON[]"
    else if HasSuffix(name, "Model") then name[..|name| - 5] + "JSON"
    else name
  }

  lemma JsonTypeOfModel(x: string)
    ensures JsonType(x + "Model") == x + "JSON"
    ensures JsonType(x + "Model[]") == x + "JSON[]"
    ensures JsonType(ModelName(x)) == x + "JSON"
  {
    var a := x + "Model";
    assert a[|a| - 5..] == "Model";
    assert a[..|a| - 5] == x;
    assert !HasSuffix(a, "Model[]") by { assert a[|a| - 1] == 'l'; }
    var b := x + "Model[]";
    assert b[|b| - 7..] == "Model[]";
    assert b[..|b| - 7] == x;
  }

  /** typeToJSON: the model-to-JSON converter of a model interface. */
  function TypeToJSON(s: string): (r: string)
    ensures HasPrefix(r, s) && HasSuffix(r, "ToJSON") && |r| == |s| + 6
  {
    s + "ToJSON"
  }

  /** jsonToType: the JSON-to-model converter of a (possibly qualified) message,
      "JSONTo" going after the first '.'. */
  function JsonToType(typeName: string): (r: string)
    ensures '.' !in typeName ==> r == "JSONTo" + typeName
    ensures '.' in typeName ==> |r| == |typeName| + 6 && r[Index(typeName, '.')] == '.'
  {
    var chunks := SplitFirst(typeName, '.');
    if |chunks| > 1 then chunks[0] + ".JSONTo" + chunks[1] else "JSONTo" + chunks[0]
  }

  /** Only the first '.' separates the qualifier: "a.B" gives "a.JSONToB". */
  lemma {:induction false} JsonToTypeOfQualified(qualifier: string, name: string)
    requires '.' !in qualifier
    ensures JsonToType(qualifier + "." + name) == qualifier + ".JSONTo" + name
  {
    var s := qualifier + "." + name;
    forall k | 0 <= k < |qualifier| ensures s[k] == qualifier[k] && s[k] != '.' { }
    assert s[|qualifier|] == '.';
    var i := Index(s, '.');
    assert i == |qualifier|;
    assert s[..i] == qualifier;
    assert s[i + 1..] == name;
  }

  /** The element-wise conversion of a repeated field `fieldName` of `m` through `fn`. */
  function MapOver(fieldName: string, fn: string): string {
    "(m." + fieldName + " || []).map(" + fn + ")"
  }

  /** The call of converter `fn` on field `fieldName` of `m`. */
  function CallOn(fn: string, fieldName: string): string {
    fn + "(m." + fieldName + ")"
  }

  lemma MapOverConverts(fieldName: string, fn: string)
    ensures ConvertsField(MapOver(fieldName, fn), fieldName, true)
  {
    var p := "(m." + fieldName + " || []).map(";
    assert MapOver(fieldName, fn) == p + (fn + ")");
  }

  lemma CallOnConverts(fn: string, fieldName: string)
    ensures ConvertsField(CallOn(fn, fieldName), fieldName, false)
    ensures fn != "" ==> CallOn(fn, fieldName) != "m." + fieldName
  {
    var r := CallOn(fn, fieldName);
    assert r == fn + ("(m." + fieldName + ")");
    assert |r| == |fn| + |fieldName| + 4;
  }

  /** The conversion of an array element of a primitive type through its JavaScript
      global (String, Number, Boolean). */
  function PrimitiveConversion(singular: string): string
    requires singular != ""
  {
    "(v) => {return " + UpperCaseFirst(singular) + "(v)}"
  }

  /** The element type of a repeated field: its type without the last two characters. */
  function SingularType(f: FieldValues): (r: string)
    requires |f.tsType| >= 2
    ensures |r| == |f.tsType| - 2 && HasPrefix(f.tsType, r)
    ensures HasSuffix(f.tsType, "[]") ==> r + "[]" == f.tsType
  {
    f.tsType[..|f.tsType| - 2]
  }

  /** The strings toJSON and fromJSON can produce for field `name`: the field itself,
      a converter call on it, or an element-wise conversion of it. */
  predicate ConvertsField(r: string, name: string, repeated: bool) {
    if repeated then HasPrefix(r, "(m." + name + " || []).map(") && HasSuffix(r, ")")
    else r == "m." + name || HasSuffix(r, "(m." + name + ")")
  }

  /** toJSON: the model-to-JSON conversion of one field, reading the camel-cased model
      member. */
  function ToJSON(f: FieldValues): (r: string)
    requires CamelCaseSafe(f.name)
    requires f.isRepeated ==> |f.tsType| >= 2
    ensures ConvertsField(r, CamelCaseOf(f.name), f.isRepeated)
    ensures !f.isRepeated ==> (r == "m." + CamelCaseOf(f.name) <==> !HasSuffix(f.tsType, "Model"))
  {
    var member := CamelCaseOf(f.name);
    if f.isRepeated then
      var singular := SingularType(f);
      var fn := if TM.IsScalarTSType(singular) then PrimitiveConversion(singular) else TypeToJSON(singular);
      MapOverConverts(member, fn);
      MapOver(member, fn)
    else if HasSuffix(f.tsType, "Model") then
      CallOnConverts(TypeToJSON(f.tsType), member);
      CallOn(TypeToJSON(f.tsType), member)
    else "m." + member
  }

  /** fromJSON: the JSON-to-model conversion of one field, reading the JSON key. */
  function FromJSON(f: FieldValues): (r: string)
    requires f.isRepeated ==> |f.tsType| >= 2
    ensures ConvertsField(r, f.name, f.isRepeated)
    ensures !f.isRepeated && !HasSuffix(f.tsType, "Model") ==> r == "m." + f.name
  {
    if f.isRepeated then
      var singular := SingularType(f);
      var element := if HasSuffix(singular, "Model") then singular[..|singular| - 5] else singular;
      var fn := if TM.IsScalarTSType(singular) then PrimitiveConversion(singular) else JsonToType(element);
      MapOverConverts(f.name, fn);
      MapOver(f.name, fn)
    else if HasSuffix(f.tsType, "Model") then
      CallOnConverts(JsonToType(f.tsType[..|f.tsType| - 5]), f.name);
      CallOn(JsonToType(f.tsType[..|f.tsType| - 5]), f.name)
    else "m." + f.name
  }
}
