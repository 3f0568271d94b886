/** The names one generated file uses agree with the names the templates declare:
    the JSON interface of a field repeats the JSON type the mapping chose, a field of
    a message type converts through the converters the message template declares
    for that message (`{{.Type}}ToJSON` and `JSONTo{{.Name}}`), and a service method
    converts its input and output through those of its message types. */
module NameAgreement {
  import opened GoStrings
  import opened Descriptors
  import opened Naming
  import opened Templates
  import opened Generator
  import TM = TypeMapping
  import R = Resolver

  // ---------------------------------------------------------------------------
  // String algebra, stated once so that no proof below regroups concatenations
  // on its own.

  lemma Assoc(a: string, b: string, c: string)
    ensures a + (b + c) == a + b + c
  {
  }

  /** A name with "Model" appended ends in "Model", not in "[]", and is none of the
      primitive type names. */
  lemma ModelSuffix(a: string)
    ensures var s := a + "Model";
            HasSuffix(s, "Model") && s[..|s| - 5] == a && !HasSuffix(s, "[]") && !TM.IsScalarTSType(s)
  {
    var s := a + "Model";
    assert s[|s| - 5..] == "Model";
    assert s[|s| - 1] == 'l';
  }

  lemma JsonSuffix(a: string)
    ensures !HasSuffix(a + "JSON", "[]")
  {
    var s := a + "JSON";
    assert s[|s| - 1] == 'N';
  }

  lemma ArraySuffix(a: string)
    ensures var s := a + "[]";
            HasSuffix(s, "[]") && s[..|s| - 2] == a
  {
    var s := a + "[]";
    assert s[|s| - 2..] == "[]";
  }

  /** jsonType leaves alone a name whose last character rules out both suffixes. */
  lemma JsonTypeKeeps(s: string)
    requires s != [] && s[|s| - 1] != 'l' && s[|s| - 1] != ']'
    ensures JsonType(s) == s
  {
    assert !HasSuffix(s, "Model[]") && !HasSuffix(s, "Model");
  }

  lemma JsonTypeKeepsArray(s: string)
    requires |s| >= 3 && s[|s| - 1] == ']' && s[|s| - 3] != 'l'
    ensures JsonType(s) == s
  {
    assert !HasSuffix(s, "Model[]") by { assert "Model[]"[4] == 'l'; }
    assert !HasSuffix(s, "Model");
  }

  /** A primitive name, alone or as an array, is not a model interface. */
  lemma ScalarIsNoModel(q: string, base: string)
    requires TM.IsScalarTSType(base)
    ensures JsonType(q + base) == q + base
    ensures JsonType(q + (base + "[]")) == q + (base + "[]")
  {
    assert base[|base| - 1] in {'g', 'r', 'n'};
    var a := q + base;
    assert a[|a| - 1] == base[|base| - 1];
    JsonTypeKeeps(a);
    var b := q + (base + "[]");
    assert b[|b| - 3] == base[|base| - 1];
    assert b[|b| - 1] == ']';
    JsonTypeKeepsArray(b);
  }

  /** A qualified model interface, and the same with "[]" dropped from its array
      form. */
  lemma ModelElement(q: string, x: string)
    ensures var e := q + (x + "Model");
            && HasSuffix(e, "Model") && e[..|e| - 5] == q + x && !TM.IsScalarTSType(e)
            && (q + (x + "Model" + "[]"))[..|e|] == e
  {
    Assoc(q, x + "Model", "[]");
    ArraySuffix(q + (x + "Model"));
    Assoc(q, x, "Model");
    ModelSuffix(q + x);
  }

  /** The names a repeated Date field leads to, under a qualifier q. */
  lemma DateElement(q: string)
    ensures var e := q + "Date";
            && (q + ("Date" + "[]"))[..|e|] == e
            && !TM.IsScalarTSType(e) && !HasSuffix(e, "Model")
            && e + "ToJSON" == q + "DateToJSON"
            && (q == "" ==> JsonToType(e) == "JSONToDate")
  {
    var e := q + "Date";
    Assoc(q, "Date", "[]");
    ArraySuffix(e);
    DateEnding(q);
    DateToJSONSplits();
    Assoc(q, "Date", "ToJSON");
    if q == "" {
      assert e == "Date";
      JSONToDateSplits();
    }
  }

  lemma DateEnding(q: string)
    ensures var e := q + "Date";
            !TM.IsScalarTSType(e) && !HasSuffix(e, "Model")
  {
    var e := q + "Date";
    assert e[|e| - 1] == 'e';
  }

  lemma DateToJSONSplits()
    ensures "Date" + "ToJSON" == "DateToJSON"
  {
  }

  // ---------------------------------------------------------------------------
  // Qualifiers.

  /** A prefix TypeName can put before a name: nothing, or an import alias without a
      dot followed by the dot that separates it. */
  predicate SimpleQualifier(q: string) {
    q == "" || (q[|q| - 1] == '.' && '.' !in q[..|q| - 1])
  }

  /** The qualifier is simple whenever the alias of the file the key resolves to has
      no dot (a file named "a.b.proto" gives the alias "a.b", which is no identifier
      in the import declaration either). */
  lemma QualifierIsSimple(t: R.Table, fd: FileDescriptor, typeName: string)
    requires R.FullTypeName(fd, typeName) in t ==> '.' !in ImportName(t[R.FullTypeName(fd, typeName)])
    ensures SimpleQualifier(R.Qualifier(t, fd, typeName))
  {
    var q := R.Qualifier(t, fd, typeName);
    if q != "" {
      var key := R.FullTypeName(fd, typeName);
      assert q == ImportName(t[key]) + ".";
      assert q[..|q| - 1] == ImportName(t[key]);
    }
  }

  /** jsonToType puts "JSONTo" right after a simple qualifier. */
  lemma JsonToTypeAfterQualifier(q: string, x: string)
    requires SimpleQualifier(q) && '.' !in x
    ensures JsonToType(q + x) == q + ("JSONTo" + x)
  {
    if q == "" {
      assert q + x == x;
      assert q + ("JSONTo" + x) == "JSONTo" + x;
    } else {
      var alias := q[..|q| - 1];
      assert q == alias + ".";
      JsonToTypeOfQualified(alias, x);
      assert ".JSONTo" == "." + "JSONTo";
      Assoc(alias, ".JSONTo", x);
      Assoc(".", "JSONTo", x);
      Assoc(alias, ".", "JSONTo" + x);
    }
  }

  /** jsonType turns a qualified model interface into the JSON interface under the
      same qualifier, for a single value and for an array. */
  lemma JsonTypeUnderQualifier(q: string, x: string)
    ensures JsonType(q + (x + "Model")) == q + (x + "JSON")
    ensures JsonType(q + (x + "Model" + "[]")) == q + (x + "JSON" + "[]")
  {
    JsonTypeOfModel(q + x);
    Assoc(q, x, "Model");
    Assoc(q, x, "JSON");
    assert "Model" + "[]" == "Model[]";
    assert "JSON" + "[]" == "JSON[]";
    Assoc(x, "Model", "[]");
    Assoc(x, "JSON", "[]");
    Assoc(q, x, "Model[]");
    Assoc(q, x, "JSON[]");
  }

  // ---------------------------------------------------------------------------
  // Fields.

  /** A field typed by a message X (not Timestamp) is written as the model interface
      XModel and the JSON interface XJSON, each under the qualifier of its own key,
      with "[]" when repeated. */
  lemma MessageFieldTypes(t: R.Table, file: FileDescriptor, f: FieldDescriptor)
    requires f.fieldType == TypeMessage && !TM.IsTimestamp(f)
    ensures var fv := FieldRecord(t, file, f);
            var model := RemovePkg(f.typeName) + "Model";
            var json := RemovePkg(f.typeName) + "JSON";
            && fv.tsType == R.Qualifier(t, file, model) + (if fv.isRepeated then model + "[]" else model)
            && fv.jsonType == R.Qualifier(t, file, json) + (if fv.isRepeated then json + "[]" else json)
  {
    var x := RemovePkg(f.typeName);
    TM.MessageMapsToGeneratedTypes(f);
    if TM.IsRepeated(f) {
      TM.RepeatedAppendsMarkerOnce(f);
      ModelSuffix(x);
      JsonSuffix(x);
      R.QualifierIgnoresArrayMarker(t, file, x + "Model");
      R.QualifierIgnoresArrayMarker(t, file, x + "JSON");
    }
  }

  /** jsonType reproduces the JSON type protoToTSType chose for every field of a
      non-message kind. */
  lemma ScalarFieldJsonType(t: R.Table, file: FileDescriptor, f: FieldDescriptor)
    requires f.fieldType != TypeMessage
    ensures var fv := FieldRecord(t, file, f);
            JsonType(fv.tsType) == fv.jsonType && fv.tsType == fv.jsonType
  {
    var base := TM.ProtoToTSType(TM.Singular(f)).0;
    TM.NonMessageKindsAreScalar(f);
    ScalarIsNoModel(R.Qualifier(t, file, TM.ProtoToTSType(f).0), base);
    if TM.IsRepeated(f) {
      TM.RepeatedAppendsMarkerOnce(f);
    }
  }

  /** The element conversions of the three primitive types call the JavaScript
      globals Number, Boolean and String. */
  lemma PrimitiveConversions()
    ensures PrimitiveConversion("number") == "(v) => {return " + "Number" + "(v)}"
    ensures PrimitiveConversion("boolean") == "(v) => {return " + "Boolean" + "(v)}"
    ensures PrimitiveConversion("string") == "(v) => {return " + "String" + "(v)}"
  {
    NumberConversion();
    BooleanConversion();
    StringConversion();
  }

  lemma NumberConversion()
    ensures PrimitiveConversion("number") == "(v) => {return " + "Number" + "(v)}"
  {
    UpperCaseFirstOfNumber();
  }

  lemma BooleanConversion()
    ensures PrimitiveConversion("boolean") == "(v) => {return " + "Boolean" + "(v)}"
  {
    UpperCaseFirstOfBoolean();
  }

  lemma StringConversion()
    ensures PrimitiveConversion("string") == "(v) => {return " + "String" + "(v)}"
  {
    UpperCaseFirstOfString();
  }

  /** An unqualified repeated field of a non-message kind is an array of its
      primitive type, and both directions convert its elements through that type's
      conversion. */
  lemma RepeatedScalarField(t: R.Table, file: FileDescriptor, f: FieldDescriptor)
    requires f.fieldType != TypeMessage && TM.IsRepeated(f) && CamelCaseSafe(f.name)
    requires R.Qualifier(t, file, TM.ProtoToTSType(f).0) == ""
    ensures var fv := FieldRecord(t, file, f);
            var base := TM.ProtoToTSType(TM.Singular(f)).0;
            && TM.IsScalarTSType(base)
            && ToJSON(fv) == MapOver(CamelCaseOf(f.name), PrimitiveConversion(base))
            && FromJSON(fv) == MapOver(f.name, PrimitiveConversion(base))
  {
    var fv := FieldRecord(t, file, f);
    var base := TM.ProtoToTSType(TM.Singular(f)).0;
    TM.NonMessageKindsAreScalar(f);
    TM.RepeatedAppendsMarkerOnce(f);
    assert fv.tsType == base + "[]";
    ArraySuffix(base);
    assert SingularType(fv) == base;
  }

  /** A repeated field of a non-message kind, unqualified, converts each element
      through the JavaScript global of its primitive type, in both directions. */
  lemma RepeatedScalarFieldConverters(t: R.Table, file: FileDescriptor, f: FieldDescriptor)
    requires f.fieldType != TypeMessage && TM.IsRepeated(f) && CamelCaseSafe(f.name)
    requires R.Qualifier(t, file, TM.ProtoToTSType(f).0) == ""
    ensures var fv := FieldRecord(t, file, f);
            var global := if f.fieldType in {TypeDouble, TypeFixed32, TypeFixed64, TypeInt32, TypeInt64} then "Number"
                          else if f.fieldType == TypeBool then "Boolean"
                          else "String";
            var fn := "(v) => {return " + global + "(v)}";
            ToJSON(fv) == MapOver(CamelCaseOf(f.name), fn) && FromJSON(fv) == MapOver(f.name, fn)
  {
    RepeatedScalarField(t, file, f);
    TM.NonMessageKindsAreScalar(f);
    PrimitiveConversions();
  }

  /** jsonType reproduces the JSON type of a message field, qualified or not, whenever
      the model and JSON keys of its message resolve to the same file. */
  lemma MessageFieldJsonType(t: R.Table, file: FileDescriptor, f: FieldDescriptor)
    requires f.fieldType == TypeMessage && !TM.IsTimestamp(f)
    requires var x := RemovePkg(f.typeName);
             R.Resolve(t, R.FullTypeName(file, x + "Model")) == R.Resolve(t, R.FullTypeName(file, x + "JSON"))
    ensures var fv := FieldRecord(t, file, f);
            JsonType(fv.tsType) == fv.jsonType
  {
    var x := RemovePkg(f.typeName);
    MessageFieldTypes(t, file, f);
    R.SameResolutionSameQualifier(t, file, x + "Model", x + "JSON");
    JsonTypeUnderQualifier(R.Qualifier(t, file, x + "Model"), x);
  }

  /** Registering a message makes its model and JSON keys resolve to its file, so a
      field that refers to a message of its own file before any other registration
      meets the condition of MessageFieldJsonType. */
  lemma RegisteredInterfacesResolveAlike(t: R.Table, file: FileDescriptor, name: string)
    ensures var r := RegisterMessage(t, file, name);
            && R.Resolve(r, R.FullTypeName(file, name)) == Ok(file)
            && R.Resolve(r, R.FullTypeName(file, name + "Model")) == Ok(file)
            && R.Resolve(r, R.FullTypeName(file, name + "JSON")) == Ok(file)
  {
  }

  /** A Timestamp field is a Date in the model interface and stays a Date in the
      JSON interface, though the JSON type the mapping chose is a string. */
  lemma TimestampFieldJsonType(t: R.Table, file: FileDescriptor, f: FieldDescriptor)
    requires TM.IsTimestamp(f) && !TM.IsRepeated(f)
    requires R.FullTypeName(file, "Date") !in t && R.FullTypeName(file, "string") !in t
    ensures var fv := FieldRecord(t, file, f);
            fv.tsType == "Date" && fv.jsonType == "string" && JsonType(fv.tsType) == "Date"
  {
    TM.TimestampMapsToDate(f);
    R.TypeNameCases(t, file, "Date");
    R.TypeNameCases(t, file, "string");
    assert !HasSuffix("Date", "Model");
  }

  /** The element type of a repeated message field, and the type of a singular one:
      the model interface under its qualifier. */
  lemma MessageFieldElement(t: R.Table, file: FileDescriptor, f: FieldDescriptor)
    requires f.fieldType == TypeMessage && !TM.IsTimestamp(f)
    ensures var fv := FieldRecord(t, file, f);
            var x := RemovePkg(f.typeName);
            var q := R.Qualifier(t, file, x + "Model");
            var element := if fv.isRepeated then SingularType(fv) else fv.tsType;
            && element == q + (x + "Model")
            && HasSuffix(element, "Model") && element[..|element| - 5] == q + x
            && !TM.IsScalarTSType(element)
  {
    var x := RemovePkg(f.typeName);
    MessageFieldTypes(t, file, f);
    ModelElement(R.Qualifier(t, file, x + "Model"), x);
  }

  /** toJSON converts a field of message type m through the converter the message
      template declares for m's record, under the qualifier of the field's type. */
  lemma ToJSONCallsDeclared(t: R.Table, file: FileDescriptor, f: FieldDescriptor, t2: R.Table, file2: FileDescriptor, m: MessageDescriptor)
    requires f.fieldType == TypeMessage && !TM.IsTimestamp(f) && CamelCaseSafe(f.name)
    requires m.name == RemovePkg(f.typeName)
    ensures var fv := FieldRecord(t, file, f);
            var fn := R.Qualifier(t, file, m.name + "Model") + DeclaredToJSON(MessageRecord(t2, file2, m));
            ToJSON(fv) == if fv.isRepeated then MapOver(CamelCaseOf(f.name), fn) else CallOn(fn, CamelCaseOf(f.name))
  {
    MessageFieldElement(t, file, f);
    Assoc(R.Qualifier(t, file, m.name + "Model"), m.name + "Model", "ToJSON");
  }

  /** fromJSON converts a field of message type m through the converter the message
      template declares for m's record, under a simple qualifier of the field's type. */
  lemma FromJSONCallsDeclared(t: R.Table, file: FileDescriptor, f: FieldDescriptor, t2: R.Table, file2: FileDescriptor, m: MessageDescriptor)
    requires f.fieldType == TypeMessage && !TM.IsTimestamp(f)
    requires m.name == RemovePkg(f.typeName)
    requires SimpleQualifier(R.Qualifier(t, file, m.name + "Model"))
    ensures var fv := FieldRecord(t, file, f);
            var fn := R.Qualifier(t, file, m.name + "Model") + DeclaredFromJSON(MessageRecord(t2, file2, m));
            FromJSON(fv) == if fv.isRepeated then MapOver(f.name, fn) else CallOn(fn, f.name)
  {
    MessageFieldElement(t, file, f);
    JsonToTypeAfterQualifier(R.Qualifier(t, file, m.name + "Model"), m.name);
  }

  /** A qualifier in front of a field's type is the alias of a file the output file
      imports, whenever the field's own key resolves as the model key does (as for a
      message of the same package registered by one file). */
  lemma QualifiedFieldIsImported(t: R.Table, file: FileDescriptor, imports: map<string, ImportValues>, f: FieldDescriptor)
    requires Named(t)
    requires var x := RemovePkg(f.typeName);
             R.Resolve(t, f.typeName) == R.Resolve(t, R.FullTypeName(file, x + "Model"))
    ensures var key := R.FullTypeName(file, RemovePkg(f.typeName) + "Model");
            var q := R.Qualifier(t, file, RemovePkg(f.typeName) + "Model");
            var r := AddImport(t, file, imports, f.typeName);
            q != "" ==> key in t && t[key].name in r && q == r[t[key].name].name + "." &&
                        r[t[key].name] == ImportValues(ImportName(t[key]), ImportPath(t[key].name))
  {
  }

  /** A resolver key determines its package and its dot-free name. */
  lemma KeyDeterminesName(p1: string, n1: string, p2: string, n2: string)
    requires '.' !in n1 && '.' !in n2
    requires "." + p1 + "." + n1 == "." + p2 + "." + n2
    ensures p1 == p2 && n1 == n2
  {
    RemovePkgOfQualified("." + p1, n1);
    RemovePkgOfQualified("." + p2, n2);
    var k := "." + p1 + "." + n1;
    assert k[..|p1| + 2] == "." + p1 + ".";
    assert k[..|p2| + 2] == "." + p2 + ".";
    assert p1 == ("." + p1 + ".")[1..|p1| + 1];
    assert p2 == ("." + p2 + ".")[1..|p2| + 1];
  }

  /** The three keys of a message registered in package a are not keys of package
      b. */
  lemma OtherPackageKeyAbsent(a: FileDescriptor, b: FileDescriptor, name: string, other: string)
    requires a.package != b.package && '.' !in name && '.' !in other
    requires !HasSuffix(name, "[]") && !HasSuffix(other, "[]")
    ensures R.FullTypeName(b, other) !in RegisterMessage(map[], a, name)
  {
    ModelSuffix(name);
    JsonSuffix(name);
    assert '.' !in name + "Model" && '.' !in name + "JSON";
    var k := R.FullTypeName(b, other);
    if k == R.FullTypeName(a, name) {
      KeyDeterminesName(a.package, name, b.package, other);
    }
    if k == R.FullTypeName(a, name + "Model") {
      KeyDeterminesName(a.package, name + "Model", b.package, other);
    }
    if k == R.FullTypeName(a, name + "JSON") {
      KeyDeterminesName(a.package, name + "JSON", b.package, other);
    }
  }

  /** A reference from package b to a message of another package a keeps the
      unqualified model name, since the model key is looked up in b's package. */
  lemma CrossPackageReferenceUnqualified(a: FileDescriptor, b: FileDescriptor, name: string, f: FieldDescriptor)
    requires a.package != b.package
    requires '.' !in name && !HasSuffix(name, "[]")
    requires f.fieldType == TypeMessage && !TM.IsRepeated(f) && f.typeName == R.FullTypeName(a, name)
    requires f.typeName != TM.TimestampTypeName
    ensures FieldRecord(RegisterMessage(map[], a, name), b, f).tsType == name + "Model"
  {
    KeyName(a, name);
    TM.MessageMapsToGeneratedTypes(f);
    ModelSuffix(name);
    OtherPackageKeyAbsent(a, b, name, name + "Model");
    R.TypeNameCases(RegisterMessage(map[], a, name), b, name + "Model");
  }

  /** removePkg recovers a dot-free name from its key. */
  lemma KeyName(fd: FileDescriptor, name: string)
    requires '.' !in name && !HasSuffix(name, "[]")
    ensures RemovePkg(R.FullTypeName(fd, name)) == name
  {
    assert R.FullTypeName(fd, name) == "." + fd.package + "." + name;
    RemovePkgOfQualified("." + fd.package, name);
  }

  /** The same reference still adds the import of a's file. */
  lemma CrossPackageImportAdded(a: FileDescriptor, b: FileDescriptor, name: string, f: FieldDescriptor)
    requires a.package != b.package && a.name != ""
    requires f.typeName == R.FullTypeName(a, name)
    ensures AddImport(RegisterMessage(map[], a, name), b, map[], f.typeName) ==
              map[a.name := ImportValues(ImportName(a), ImportPath(a.name))]
  {
    var t := RegisterMessage(map[], a, name);
    RegisteredInterfacesResolveAlike(map[], a, name);
    assert R.Resolve(t, f.typeName) == Ok(a);
    assert !R.SamePackage(a, b);
  }

  // ---------------------------------------------------------------------------
  // A reference whose model key and own key resolve to different files.

  /** As written, a field of package b typed by message X of package a is qualified
      by a file g of package b that also declares X, while the import goes to a's
      file: the field names g's XModel under an alias the output does not import. */
  lemma QualifierNotImported(a: FileDescriptor, g: FileDescriptor, b: FileDescriptor, name: string, f: FieldDescriptor)
    requires a.package != b.package && g.package == b.package && g.name != b.name
    requires a.name != "" && g.name != "" && a.name != g.name
    requires '.' !in name && !HasSuffix(name, "[]")
    requires f.fieldType == TypeMessage && !TM.IsRepeated(f) && f.typeName == R.FullTypeName(a, name)
    requires f.typeName != TM.TimestampTypeName
    ensures var t := RegisterMessage(RegisterMessage(map[], a, name), g, name);
            && FieldRecord(t, b, f).tsType == ImportName(g) + "." + (name + "Model")
            && AddImport(t, b, map[], f.typeName) == map[a.name := ImportValues(ImportName(a), ImportPath(a.name))]
            && g.name !in AddImport(t, b, map[], f.typeName)
  {
    var t := RegisterMessage(RegisterMessage(map[], a, name), g, name);
    SamePackageModelKey(RegisterMessage(map[], a, name), g, b, name);
    KeyName(a, name);
    ShadowedFieldType(t, g, b, name, f);
    ReferenceResolvesToA(a, g, b, name, f);
    ImportOfResolved(t, a, b, f.typeName);
  }

  /** A reference resolving to a file of another package imports that file alone. */
  lemma ImportOfResolved(t: R.Table, a: FileDescriptor, b: FileDescriptor, typeName: string)
    requires Named(t) && R.Resolve(t, typeName) == Ok(a) && a.package != b.package
    ensures AddImport(t, b, map[], typeName) == map[a.name := ImportValues(ImportName(a), ImportPath(a.name))]
  {
  }

  /** In a table where g's file holds the model key of X in b's package, the field is
      typed under g's alias. */
  lemma ShadowedFieldType(t: R.Table, g: FileDescriptor, b: FileDescriptor, name: string, f: FieldDescriptor)
    requires g.package == b.package && g.name != b.name
    requires f.fieldType == TypeMessage && !TM.IsRepeated(f) && f.typeName != TM.TimestampTypeName
    requires RemovePkg(f.typeName) == name
    requires var key := R.FullTypeName(b, name + "Model"); key in t && t[key] == g
    ensures FieldRecord(t, b, f).tsType == ImportName(g) + "." + (name + "Model")
  {
    TM.MessageMapsToGeneratedTypes(f);
    R.TypeNameCases(t, b, name + "Model");
  }

  /** The model key of X in b's package is g's, once g has registered X. */
  lemma SamePackageModelKey(t0: R.Table, g: FileDescriptor, b: FileDescriptor, name: string)
    requires g.package == b.package
    ensures var t := RegisterMessage(t0, g, name);
            var key := R.FullTypeName(b, name + "Model");
            key in t && t[key] == g
  {
    assert R.FullTypeName(b, name + "Model") == R.FullTypeName(g, name + "Model");
  }

  /** The field's own key still resolves to a after g registered X in package b. */
  lemma ReferenceResolvesToA(a: FileDescriptor, g: FileDescriptor, b: FileDescriptor, name: string, f: FieldDescriptor)
    requires a.package != b.package && g.package == b.package
    requires '.' !in name && !HasSuffix(name, "[]")
    requires f.typeName == R.FullTypeName(a, name)
    ensures R.Resolve(RegisterMessage(RegisterMessage(map[], a, name), g, name), f.typeName) == Ok(a)
  {
    OtherPackageKeyAbsent(g, a, name, name);
  }

  /** The qualifier keyed on the referenced type's own key, as the import is: the
      alias of the file that declares the type, when that is another output file. */
  function ReferenceQualifier(t: R.Table, file: FileDescriptor, typeName: string): (q: string)
    ensures q == "" || q[|q| - 1] == '.'
    ensures q != "" <==> typeName in t && !R.SamePackage(t[typeName], file)
  {
    match R.Resolve(t, typeName)
    case Ok(fp) => if !R.SamePackage(fp, file) then ImportName(fp) + "." else ""
    case Err(_) => ""
  }

  /** The field record with that qualifier on a message type other than Timestamp;
      every other field as before. */
  function FieldRecordCorrected(t: R.Table, file: FileDescriptor, f: FieldDescriptor): (r: FieldValues)
    ensures r.name == f.name && r.isRepeated == TM.IsRepeated(f)
  {
    if f.fieldType == TypeMessage && !TM.IsTimestamp(f) then
      var types := TM.ProtoToTSType(f);
      var q := ReferenceQualifier(t, file, f.typeName);
      FieldValues(f.name, q + types.0, q + types.1, TM.IsRepeated(f))
    else FieldRecord(t, file, f)
  }

  /** With the correction, a prefix on a message field's type is always the alias of
      a file the field's import adds, with no condition on the table. */
  lemma CorrectedQualifierIsImported(t: R.Table, file: FileDescriptor, imports: map<string, ImportValues>, f: FieldDescriptor)
    requires Named(t)
    requires f.fieldType == TypeMessage && !TM.IsTimestamp(f)
    ensures var q := ReferenceQualifier(t, file, f.typeName);
            var r := AddImport(t, file, imports, f.typeName);
            && FieldRecordCorrected(t, file, f).tsType == q + TM.ProtoToTSType(f).0
            && (q != "" ==> f.typeName in t && t[f.typeName].name in r && q == r[t[f.typeName].name].name + "." &&
                            r[t[f.typeName].name] == ImportValues(ImportName(t[f.typeName]), ImportPath(t[f.typeName].name)))
  {
  }

  /** In the table of the counterexample, the corrected field is typed a.XModel: the
      model of the referenced message, under the alias of the file imported. */
  lemma CorrectedCrossPackage(a: FileDescriptor, g: FileDescriptor, b: FileDescriptor, name: string, f: FieldDescriptor)
    requires a.package != b.package && g.package == b.package
    requires '.' !in name && !HasSuffix(name, "[]")
    requires f.fieldType == TypeMessage && !TM.IsRepeated(f) && f.typeName == R.FullTypeName(a, name)
    requires f.typeName != TM.TimestampTypeName
    ensures var t := RegisterMessage(RegisterMessage(map[], a, name), g, name);
            FieldRecordCorrected(t, b, f).tsType == ImportName(a) + "." + (name + "Model")
  {
    KeyName(a, name);
    TM.MessageMapsToGeneratedTypes(f);
    ReferenceResolvesToA(a, g, b, name, f);
  }

  /** Where the field's own key resolves as its model key does, the correction types
      the field as the code does. */
  lemma CorrectedAgreesWhenKeysResolveAlike(t: R.Table, file: FileDescriptor, f: FieldDescriptor)
    requires f.fieldType == TypeMessage && !TM.IsTimestamp(f)
    requires var x := RemovePkg(f.typeName);
             R.Resolve(t, f.typeName) == R.Resolve(t, R.FullTypeName(file, x + "Model"))
    ensures FieldRecordCorrected(t, file, f).tsType == FieldRecord(t, file, f).tsType
  {
    var x := RemovePkg(f.typeName);
    assert ReferenceQualifier(t, file, f.typeName) == R.Qualifier(t, file, x + "Model");
    MessageFieldTypes(t, file, f);
    ModelTypeOf(f);
  }

  /** The TypeScript type a message field maps to, singular or repeated. */
  lemma ModelTypeOf(f: FieldDescriptor)
    requires f.fieldType == TypeMessage && !TM.IsTimestamp(f)
    ensures var model := RemovePkg(f.typeName) + "Model";
            TM.ProtoToTSType(f).0 == if TM.IsRepeated(f) then model + "[]" else model
  {
    TM.MessageMapsToGeneratedTypes(f);
    if TM.IsRepeated(f) {
      TM.RepeatedAppendsMarkerOnce(f);
    }
  }

  // ---------------------------------------------------------------------------
  // Service methods.

  /** A service method passes its argument through the model-to-JSON converter of its
      input message and promises the model interface of its output message. */
  lemma MethodInputConverterDeclared(t: R.Table, file: FileDescriptor, md: MethodDescriptor,
                                     t2: R.Table, file2: FileDescriptor, input: MessageDescriptor,
                                     t3: R.Table, file3: FileDescriptor, output: MessageDescriptor)
    requires input.name == RemovePkg(md.inputType) && output.name == RemovePkg(md.outputType)
    ensures var r := MethodRecord(t, file, md);
            && TypeToJSON(ModelName(r.inputType)) == R.Qualifier(t, file, input.name) + DeclaredToJSON(MessageRecord(t2, file2, input))
            && ModelName(r.outputType) == R.Qualifier(t, file, output.name) + MessageRecord(t3, file3, output).tsType
  {
    var qi := R.Qualifier(t, file, input.name);
    Assoc(qi, input.name, "Model");
    Assoc(qi, input.name + "Model", "ToJSON");
    Assoc(R.Qualifier(t, file, output.name), output.name, "Model");
  }

  /** A service method resolves its response through the JSON-to-model converter of
      its output message. */
  lemma MethodOutputConverterDeclared(t: R.Table, file: FileDescriptor, md: MethodDescriptor,
                                      t3: R.Table, file3: FileDescriptor, output: MessageDescriptor)
    requires output.name == RemovePkg(md.outputType)
    requires SimpleQualifier(R.Qualifier(t, file, output.name))
    ensures var r := MethodRecord(t, file, md);
            JsonToType(r.outputType) == R.Qualifier(t, file, output.name) + DeclaredFromJSON(MessageRecord(t3, file3, output))
  {
    JsonToTypeAfterQualifier(R.Qualifier(t, file, output.name), output.name);
  }

  /** The argument name of a method is that of its unqualified input type. */
  lemma MethodArgumentUnqualified(t: R.Table, file: FileDescriptor, md: MethodDescriptor)
    requires RemovePkg(md.inputType) != ""
    ensures var r := MethodRecord(t, file, md);
            RemovePkg(r.inputType) != "" && ArgumentName(r.inputType) == ArgumentName(md.inputType)
  {
    var x := RemovePkg(md.inputType);
    var q := R.Qualifier(t, file, x);
    if q == "" {
      assert q + x == x;
    } else {
      var alias := q[..|q| - 1];
      assert q == alias + ".";
      RemovePkgOfQualified(alias, x);
    }
  }

  // ---------------------------------------------------------------------------
  // A repeated Timestamp field.

  /** toJSON as written maps the elements of a repeated Timestamp field through
      "DateToJSON", and fromJSON through "JSONToDate" when no message named Date
      qualifies the name. */
  lemma RepeatedTimestampConverters(t: R.Table, file: FileDescriptor, f: FieldDescriptor)
    requires TM.IsTimestamp(f) && TM.IsRepeated(f) && CamelCaseSafe(f.name)
    ensures var fv := FieldRecord(t, file, f);
            var q := R.Qualifier(t, file, "Date");
            && ToJSON(fv) == MapOver(CamelCaseOf(f.name), q + "DateToJSON")
            && (q == "" ==> FromJSON(fv) == MapOver(f.name, "JSONToDate"))
  {
    RepeatedTimestampType(t, file, f);
    DateElement(R.Qualifier(t, file, "Date"));
  }

  /** A repeated Timestamp field is an array of Date under the qualifier of "Date". */
  lemma RepeatedTimestampType(t: R.Table, file: FileDescriptor, f: FieldDescriptor)
    requires TM.IsTimestamp(f) && TM.IsRepeated(f)
    ensures FieldRecord(t, file, f).tsType == R.Qualifier(t, file, "Date") + ("Date" + "[]")
  {
    TM.TimestampMapsToDate(f);
    TM.RepeatedAppendsMarkerOnce(f);
    assert !HasSuffix("Date", "[]");
    R.QualifierIgnoresArrayMarker(t, file, "Date");
  }

  /** No message record declares "DateToJSON", under any qualifier: every declared
      model-to-JSON converter ends in "ModelToJSON". */
  lemma DateToJSONNeverDeclared(t: R.Table, file: FileDescriptor, m: MessageDescriptor, q: string, q2: string)
    ensures q + "DateToJSON" != q2 + DeclaredToJSON(MessageRecord(t, file, m))
  {
    var a := q + "DateToJSON";
    var b := q2 + DeclaredToJSON(MessageRecord(t, file, m));
    assert a[|a| - 7] == 'e';
    assert b[|b| - 7] == 'l';
  }

  /** "JSONToDate" is declared only by a message named Date. */
  lemma JSONToDateDeclaredOnlyByDate(t: R.Table, file: FileDescriptor, m: MessageDescriptor)
    ensures "JSONToDate" == DeclaredFromJSON(MessageRecord(t, file, m)) <==> m.name == "Date"
  {
    JSONToDateSplits();
    PrefixCancels("JSONTo", m.name, "Date");
  }

  lemma JSONToDateSplits()
    ensures "JSONTo" + "Date" == "JSONToDate"
  {
  }

  lemma PrefixCancels(a: string, x: string, y: string)
    ensures a + x == a + y <==> x == y
  {
    if a + x == a + y {
      assert x == (a + x)[|a|..];
      assert y == (a + y)[|a|..];
    }
  }

  /** toJSON with the repeated Timestamp case corrected: the elements pass through, as
      the value of a singular Timestamp field does. */
  function ToJSONCorrected(f: FieldValues): string
    requires CamelCaseSafe(f.name)
    requires f.isRepeated ==> |f.tsType| >= 2
  {
    if f.isRepeated && SingularType(f) == "Date" then "(m." + CamelCaseOf(f.name) + " || [])"
    else ToJSON(f)
  }

  /** fromJSON with the same correction. */
  function FromJSONCorrected(f: FieldValues): string
    requires f.isRepeated ==> |f.tsType| >= 2
  {
    if f.isRepeated && SingularType(f) == "Date" then "(m." + f.name + " || [])"
    else FromJSON(f)
  }

  /** Without a message named Date in the file's package, a Timestamp field is typed
      Date, or Date[] with element Date. */
  lemma TimestampRecordType(t: R.Table, file: FileDescriptor, f: FieldDescriptor)
    requires TM.IsTimestamp(f)
    requires R.FullTypeName(file, "Date") !in t
    ensures var fv := FieldRecord(t, file, f);
            && (fv.isRepeated ==> |fv.tsType| >= 2 && SingularType(fv) == "Date")
            && (!fv.isRepeated ==> fv.tsType == "Date" && !HasSuffix(fv.tsType, "Model"))
  {
    TM.TimestampMapsToDate(f);
    assert R.Qualifier(t, file, "Date") == "";
    DateElement("");
    if TM.IsRepeated(f) {
      RepeatedTimestampType(t, file, f);
    }
  }

  /** With the correction a Timestamp field references no converter at all: singular
      or repeated, both directions read the member itself. */
  lemma CorrectedTimestampPassesThrough(t: R.Table, file: FileDescriptor, f: FieldDescriptor)
    requires TM.IsTimestamp(f) && CamelCaseSafe(f.name)
    requires R.FullTypeName(file, "Date") !in t
    ensures var fv := FieldRecord(t, file, f);
            ToJSONCorrected(fv) == if fv.isRepeated then "(m." + CamelCaseOf(f.name) + " || [])" else "m." + CamelCaseOf(f.name)
    ensures var fv := FieldRecord(t, file, f);
            FromJSONCorrected(fv) == if fv.isRepeated then "(m." + f.name + " || [])" else "m." + f.name
  {
    TimestampRecordType(t, file, f);
  }

  /** The correction changes nothing for a field of message type, so the agreement
      above holds for the corrected functions too. */
  lemma CorrectedKeepsMessageFields(t: R.Table, file: FileDescriptor, f: FieldDescriptor)
    requires f.fieldType == TypeMessage && !TM.IsTimestamp(f) && CamelCaseSafe(f.name)
    ensures var fv := FieldRecord(t, file, f);
            ToJSONCorrected(fv) == ToJSON(fv) && FromJSONCorrected(fv) == FromJSON(fv)
  {
    var fv := FieldRecord(t, file, f);
    MessageFieldElement(t, file, f);
    if fv.isRepeated {
      ModelIsNotDate(SingularType(fv));
    }
  }

  lemma ModelIsNotDate(e: string)
    requires HasSuffix(e, "Model")
    ensures e != "Date"
  {
    assert e[|e| - 1] == 'l';
  }
}
