/** generate of generator.go: one pass over the input files that registers every
    declared name in the resolver, builds the template records of each file and
    collects the files it must import. */
module Generator {
  import opened GoStrings
  import opened Descriptors
  import opened Naming
  import opened Templates
  import TM = TypeMapping
  import R = Resolver

  const TwirpFileName := "twirp.ts"

  /** The content of a response file: the fixed runtime source, or the records the
      file template is executed on. */
  datatype Content = TwirpSource | Compiled(file: ProtoFile)

  datatype ResponseFile = ResponseFile(name: string, content: Content)

  /** The state generate threads through one file: the resolver table and the
      file's records. */
  datatype Build = Build(table: R.Table, pfile: ProtoFile)

  const EmptyProtoFile := ProtoFile([], [], [], map[])

  /** Every file the resolver knows has a name, so importPath does not panic on it. */
  predicate Named(t: R.Table) {
    forall k :: k in t ==> t[k].name != ""
  }

  // ---------------------------------------------------------------------------
  // The records, as functions of the descriptors and of the table at that point.

  function EnumRecord(e: EnumDescriptor): (r: EnumValues)
    ensures r.name == e.name && |r.values| == |e.values|
    ensures forall i :: 0 <= i < |e.values| ==> r.values[i] == EnumKeyVal(e.values[i].name, e.values[i].number)
  {
    EnumValues(e.name, seq(|e.values|, i requires 0 <= i < |e.values| => EnumKeyVal(e.values[i].name, e.values[i].number)))
  }

  /** A field's record: the mapped types, qualified by the resolver. */
  function FieldRecord(t: R.Table, file: FileDescriptor, f: FieldDescriptor): (r: FieldValues)
    ensures r.name == f.name && r.isRepeated == TM.IsRepeated(f)
    ensures HasSuffix(r.tsType, TM.ProtoToTSType(f).0) && HasSuffix(r.jsonType, TM.ProtoToTSType(f).1)
  {
    var types := TM.ProtoToTSType(f);
    FieldValues(f.name, R.TypeName(t, file, types.0), R.TypeName(t, file, types.1), TM.IsRepeated(f))
  }

  function FieldRecords(t: R.Table, file: FileDescriptor, fields: seq<FieldDescriptor>): (r: seq<FieldValues>)
    ensures |r| == |fields|
    decreases |fields|
  {
    if fields == [] then []
    else FieldRecords(t, file, fields[..|fields| - 1]) + [FieldRecord(t, file, fields[|fields| - 1])]
  }

  /** The record of the i-th field is that field's record. */
  lemma {:induction false} FieldRecordsAt(t: R.Table, file: FileDescriptor, fields: seq<FieldDescriptor>, i: nat)
    requires i < |fields|
    ensures FieldRecords(t, file, fields)[i] == FieldRecord(t, file, fields[i])
    decreases |fields|
  {
    if i < |fields| - 1 {
      FieldRecordsAt(t, file, fields[..|fields| - 1], i);
    }
  }

  /** The three names a message registers: the class, the model and the JSON
      interface. */
  function RegisterMessage(t: R.Table, file: FileDescriptor, name: string): (r: R.Table)
    ensures Named(t) && file.name != "" ==> Named(r)
  {
    R.Register(R.Register(R.Register(t, file, name), file, name + "Model"), file, name + "JSON")
  }

  function MessageRecord(t: R.Table, file: FileDescriptor, m: MessageDescriptor): MessageValues {
    MessageValues(m.name, m.name + "Model", m.name + "JSON", FieldRecords(t, file, m.fields))
  }

  function MethodRecord(t: R.Table, file: FileDescriptor, md: MethodDescriptor): (r: ServiceMethodValues)
    ensures r.name == md.name && r.path == ""
    ensures HasSuffix(r.inputType, RemovePkg(md.inputType)) && HasSuffix(r.outputType, RemovePkg(md.outputType))
  {
    ServiceMethodValues(md.name, "", R.TypeName(t, file, RemovePkg(md.inputType)), R.TypeName(t, file, RemovePkg(md.outputType)))
  }

  function MethodRecords(t: R.Table, file: FileDescriptor, methods: seq<MethodDescriptor>): (r: seq<ServiceMethodValues>)
    ensures |r| == |methods|
    decreases |methods|
  {
    if methods == [] then []
    else MethodRecords(t, file, methods[..|methods| - 1]) + [MethodRecord(t, file, methods[|methods| - 1])]
  }

  lemma {:induction false} MethodRecordsAt(t: R.Table, file: FileDescriptor, methods: seq<MethodDescriptor>, i: nat)
    requires i < |methods|
    ensures MethodRecords(t, file, methods)[i] == MethodRecord(t, file, methods[i])
    decreases |methods|
  {
    if i < |methods| - 1 {
      MethodRecordsAt(t, file, methods[..|methods| - 1], i);
    }
  }

  function ServiceRecord(t: R.Table, file: FileDescriptor, s: ServiceDescriptor): ServiceValues {
    ServiceValues(s.name, file.package, MethodRecords(t, file, s.methods))
  }

  // ---------------------------------------------------------------------------
  // Imports.

  /** The import a reference to `typeName` adds: the defining file, keyed by its
      name, when it resolves and is not the same package and file. */
  function AddImport(t: R.Table, file: FileDescriptor, imports: map<string, ImportValues>, typeName: string): (r: map<string, ImportValues>)
    requires Named(t)
    ensures forall k :: k in imports ==> k in r
    ensures forall k :: k in r && k !in imports ==> typeName in t && k == t[typeName].name
  {
    match R.Resolve(t, typeName)
    case Ok(fp) =>
      if !R.SamePackage(fp, file) then imports[fp.name := ImportValues(ImportName(fp), ImportPath(fp.name))]
      else imports
    case Err(_) => imports
  }

  /** AddImport's two cases, in the terms the generate loops test. */
  lemma AddImportCases(t: R.Table, file: FileDescriptor, imports: map<string, ImportValues>, typeName: string)
    requires Named(t)
    ensures var fp := R.Resolve(t, typeName);
            fp.Ok? && !R.SamePackage(fp.value, file) ==>
              AddImport(t, file, imports, typeName) == imports[fp.value.name := ImportValues(ImportName(fp.value), ImportPath(fp.value.name))]
    ensures var fp := R.Resolve(t, typeName);
            !(fp.Ok? && !R.SamePackage(fp.value, file)) ==> AddImport(t, file, imports, typeName) == imports
  {
  }

  function FieldImports(t: R.Table, file: FileDescriptor, imports: map<string, ImportValues>, fields: seq<FieldDescriptor>): map<string, ImportValues>
    requires Named(t)
    decreases |fields|
  {
    if fields == [] then imports
    else AddImport(t, file, FieldImports(t, file, imports, fields[..|fields| - 1]), fields[|fields| - 1].typeName)
  }

  /** Each method imports its input type's file, then its output type's. */
  function MethodImports(t: R.Table, file: FileDescriptor, imports: map<string, ImportValues>, methods: seq<MethodDescriptor>): map<string, ImportValues>
    requires Named(t)
    decreases |methods|
  {
    if methods == [] then imports
    else
      var md := methods[|methods| - 1];
      var before := MethodImports(t, file, imports, methods[..|methods| - 1]);
      AddImport(t, file, AddImport(t, file, before, md.inputType), md.outputType)
  }

  // ---------------------------------------------------------------------------
  // The three passes over one file, as folds.

  function EnumsBuild(b: Build, file: FileDescriptor, enums: seq<EnumDescriptor>): (r: Build)
    ensures Named(b.table) && file.name != "" ==> Named(r.table)
    decreases |enums|
  {
    if enums == [] then b
    else
      var p := EnumsBuild(b, file, enums[..|enums| - 1]);
      var e := enums[|enums| - 1];
      Build(R.Register(p.table, file, e.name), p.pfile.(enums := p.pfile.enums + [EnumRecord(e)]))
  }

  /** A message registers its names first, so its fields see them. */
  function MessagesBuild(b: Build, file: FileDescriptor, messages: seq<MessageDescriptor>): (r: Build)
    requires Named(b.table) && file.name != ""
    ensures Named(r.table)
    decreases |messages|
  {
    if messages == [] then b
    else
      var p := MessagesBuild(b, file, messages[..|messages| - 1]);
      var m := messages[|messages| - 1];
      var t := RegisterMessage(p.table, file, m.name);
      Build(t, p.pfile.(messages := p.pfile.messages + [MessageRecord(t, file, m)],
                        imports := FieldImports(t, file, p.pfile.imports, m.fields)))
  }

  function ServicesBuild(b: Build, file: FileDescriptor, services: seq<ServiceDescriptor>): (r: Build)
    requires Named(b.table) && file.name != ""
    ensures Named(r.table)
    decreases |services|
  {
    if services == [] then b
    else
      var p := ServicesBuild(b, file, services[..|services| - 1]);
      var s := services[|services| - 1];
      var t := R.Register(p.table, file, s.name);
      Build(t, p.pfile.(services := p.pfile.services + [ServiceRecord(t, file, s)],
                        imports := MethodImports(t, file, p.pfile.imports, s.methods)))
  }

  /** One file: enums, then messages, then services, starting from empty records. */
  function FileBuild(t: R.Table, file: FileDescriptor): (r: Build)
    requires Named(t) && file.name != ""
    ensures Named(r.table)
  {
    var afterEnums := EnumsBuild(Build(t, EmptyProtoFile), file, file.enums);
    var afterMessages := MessagesBuild(afterEnums, file, file.messages);
    ServicesBuild(afterMessages, file, file.services)
  }

  predicate AllNamed(files: seq<FileDescriptor>) {
    forall i :: 0 <= i < |files| ==> files[i].name != ""
  }

  /** The resolver table after the first files, and each file's records. */
  datatype Run = Run(table: R.Table, outputs: seq<ProtoFile>)

  function FilesBuild(files: seq<FileDescriptor>): (r: Run)
    requires AllNamed(files)
    ensures Named(r.table) && |r.outputs| == |files|
    decreases |files|
  {
    if files == [] then Run(map[], [])
    else
      var p := FilesBuild(files[..|files| - 1]);
      var b := FileBuild(p.table, files[|files| - 1]);
      Run(b.table, p.outputs + [b.pfile])
  }

  /** The output of input i: its records, built on the table the earlier files left,
      under its ".ts" name. */
  function FileOutput(files: seq<FileDescriptor>, i: nat): (r: ResponseFile)
    requires AllNamed(files) && i < |files|
    ensures r.name == TsFileName(files[i].name) && r.content.Compiled?
  {
    assert AllNamed(files[..i]);
    ResponseFile(TsFileName(files[i].name), Compiled(FileBuild(FilesBuild(files[..i]).table, files[i]).pfile))
  }

  /** The response: the runtime file first, then one file per input, in order. */
  function Response(files: seq<FileDescriptor>): (res: seq<ResponseFile>)
    requires AllNamed(files)
    ensures |res| == |files| + 1
    ensures res[0] == ResponseFile(TwirpFileName, TwirpSource)
    decreases |files|
  {
    if files == [] then [ResponseFile(TwirpFileName, TwirpSource)]
    else Response(files[..|files| - 1]) + [FileOutput(files, |files| - 1)]
  }

  /** Output i + 1 is input i's output. */
  lemma {:induction false} ResponseFiles(files: seq<FileDescriptor>, i: nat)
    requires AllNamed(files) && i < |files|
    ensures Response(files)[i + 1] == FileOutput(files, i)
    decreases |files|
  {
    var n := |files| - 1;
    var prefix := files[..n];
    assert AllNamed(prefix);
    var earlier := Response(prefix);
    assert |earlier| == n + 1;
    assert Response(files) == earlier + [FileOutput(files, n)];
    if i < n {
      ResponseFiles(prefix, i);
      FileOutputOfPrefix(files, n, i);
      assert Response(files)[i + 1] == earlier[i + 1];
    } else {
      assert Response(files)[i + 1] == FileOutput(files, n);
    }
  }

  /** The output of input i does not depend on the inputs after it. */
  lemma FileOutputOfPrefix(files: seq<FileDescriptor>, n: nat, i: nat)
    requires AllNamed(files) && i < n <= |files|
    ensures AllNamed(files[..n])
    ensures FileOutput(files[..n], i) == FileOutput(files, i)
  {
    var prefix := files[..n];
    assert prefix[..i] == files[..i];
    assert prefix[i] == files[i];
  }

  lemma FilesBuildStep(files: seq<FileDescriptor>, i: nat)
    requires AllNamed(files) && i < |files|
    ensures AllNamed(files[..i]) && AllNamed(files[..i + 1])
    ensures var p := FilesBuild(files[..i]);
            var b := FileBuild(p.table, files[i]);
            FilesBuild(files[..i + 1]) == Run(b.table, p.outputs + [b.pfile])
  {
    assert files[..i + 1][..i] == files[..i];
  }

  lemma ResponseStep(files: seq<FileDescriptor>, i: nat)
    requires AllNamed(files) && i < |files|
    ensures AllNamed(files[..i]) && AllNamed(files[..i + 1])
    ensures Response(files[..i + 1]) == Response(files[..i]) + [FileOutput(files, i)]
  {
    var prefix := files[..i + 1];
    assert prefix[..i] == files[..i];
    assert prefix[i] == files[i];
  }

  lemma MessagesBuildStep(b: Build, file: FileDescriptor, messages: seq<MessageDescriptor>, i: nat)
    requires Named(b.table) && file.name != "" && i < |messages|
    ensures var p := MessagesBuild(b, file, messages[..i]);
            var m := messages[i];
            var t := RegisterMessage(p.table, file, m.name);
            MessagesBuild(b, file, messages[..i + 1]) ==
              Build(t, p.pfile.(messages := p.pfile.messages + [MessageRecord(t, file, m)],
                                imports := FieldImports(t, file, p.pfile.imports, m.fields)))
  {
    assert messages[..i + 1][..i] == messages[..i];
  }

  lemma FieldRecordsStep(t: R.Table, file: FileDescriptor, fields: seq<FieldDescriptor>, i: nat)
    requires i < |fields|
    ensures FieldRecords(t, file, fields[..i + 1]) == FieldRecords(t, file, fields[..i]) + [FieldRecord(t, file, fields[i])]
  {
    assert fields[..i + 1][..i] == fields[..i];
  }

  lemma FieldImportsStep(t: R.Table, file: FileDescriptor, imports: map<string, ImportValues>, fields: seq<FieldDescriptor>, i: nat)
    requires Named(t) && i < |fields|
    ensures FieldImports(t, file, imports, fields[..i + 1]) == AddImport(t, file, FieldImports(t, file, imports, fields[..i]), fields[i].typeName)
  {
    assert fields[..i + 1][..i] == fields[..i];
  }

  lemma MethodRecordsStep(t: R.Table, file: FileDescriptor, methods: seq<MethodDescriptor>, i: nat)
    requires i < |methods|
    ensures MethodRecords(t, file, methods[..i + 1]) == MethodRecords(t, file, methods[..i]) + [MethodRecord(t, file, methods[i])]
  {
    assert methods[..i + 1][..i] == methods[..i];
  }

  lemma MethodImportsStep(t: R.Table, file: FileDescriptor, imports: map<string, ImportValues>, methods: seq<MethodDescriptor>, i: nat)
    requires Named(t) && i < |methods|
    ensures MethodImports(t, file, imports, methods[..i + 1]) ==
              AddImport(t, file, AddImport(t, file, MethodImports(t, file, imports, methods[..i]), methods[i].inputType), methods[i].outputType)
  {
    assert methods[..i + 1][..i] == methods[..i];
  }

  // ---------------------------------------------------------------------------
  // The loops of generate, each proved to compute its fold.

  method EnumRecordOf(e: EnumDescriptor) returns (v: EnumValues)
    ensures v == EnumRecord(e)
  {
    var values: seq<EnumKeyVal> := [];
    for i := 0 to |e.values|
      invariant |values| == i
      invariant forall k :: 0 <= k < i ==> values[k] == EnumKeyVal(e.values[k].name, e.values[k].number)
    {
      var value := e.values[i];
      values := values + [EnumKeyVal(value.name, value.number)];
    }
    v := EnumValues(e.name, values);
  }

  method AddEnums(resolver: R.DependencyResolver, file: FileDescriptor, pfile: ProtoFile) returns (out: ProtoFile)
    modifies resolver
    ensures Build(resolver.v, out) == EnumsBuild(Build(old(resolver.v), pfile), file, file.enums)
  {
    out := pfile;
    for i := 0 to |file.enums|
      invariant Build(resolver.v, out) == EnumsBuild(Build(old(resolver.v), pfile), file, file.enums[..i])
    {
      var e := file.enums[i];
      resolver.Set(file, e.name);
      var v := EnumRecordOf(e);
      out := out.(enums := out.enums + [v]);
      assert file.enums[..i + 1][..i] == file.enums[..i];
    }
    assert file.enums[..|file.enums|] == file.enums;
  }

  /** The field loop: it reads the resolver and adds the imports its fields need. */
  method MessageFields(resolver: R.DependencyResolver, file: FileDescriptor, fields: seq<FieldDescriptor>, imports: map<string, ImportValues>)
    returns (records: seq<FieldValues>, newImports: map<string, ImportValues>)
    requires Named(resolver.v)
    ensures records == FieldRecords(resolver.v, file, fields)
    ensures newImports == FieldImports(resolver.v, file, imports, fields)
  {
    records := [];
    newImports := imports;
    for i := 0 to |fields|
      invariant records == FieldRecords(resolver.v, file, fields[..i])
      invariant newImports == FieldImports(resolver.v, file, imports, fields[..i])
    {
      var field := fields[i];
      FieldImportsStep(resolver.v, file, imports, fields, i);
      FieldRecordsStep(resolver.v, file, fields, i);
      ghost var prev := newImports;
      var fp := R.Resolve(resolver.v, field.typeName);
      if fp.Ok? && !R.SamePackage(fp.value, file) {
        newImports := newImports[fp.value.name := ImportValues(ImportName(fp.value), ImportPath(fp.value.name))];
      }
      AddImportCases(resolver.v, file, prev, field.typeName);
      assert newImports == AddImport(resolver.v, file, prev, field.typeName);
      var types := TM.ProtoToTSType(field);
      var record := FieldValues(field.name, R.TypeName(resolver.v, file, types.0), R.TypeName(resolver.v, file, types.1), TM.IsRepeated(field));
      assert record == FieldRecord(resolver.v, file, field);
      records := records + [record];
    }
    assert fields[..|fields|] == fields;
  }

  method AddMessages(resolver: R.DependencyResolver, file: FileDescriptor, pfile: ProtoFile) returns (out: ProtoFile)
    requires Named(resolver.v) && file.name != ""
    modifies resolver
    ensures Named(resolver.v)
    ensures Build(resolver.v, out) == MessagesBuild(Build(old(resolver.v), pfile), file, file.messages)
  {
    out := pfile;
    for i := 0 to |file.messages|
      invariant Named(resolver.v)
      invariant Build(resolver.v, out) == MessagesBuild(Build(old(resolver.v), pfile), file, file.messages[..i])
    {
      var m := file.messages[i];
      MessagesBuildStep(Build(old(resolver.v), pfile), file, file.messages, i);
      ghost var before := resolver.v;
      resolver.Set(file, m.name);
      resolver.Set(file, m.name + "Model");
      resolver.Set(file, m.name + "JSON");
      assert resolver.v == RegisterMessage(before, file, m.name);
      var fields, imports := MessageFields(resolver, file, m.fields, out.imports);
      var v := MessageValues(m.name, m.name + "Model", m.name + "JSON", fields);
      assert v == MessageRecord(resolver.v, file, m);
      out := out.(messages := out.messages + [v], imports := imports);
    }
    assert file.messages[..|file.messages|] == file.messages;
  }

  /** The method loop: the input type's import is added before the output type's. */
  method ServiceMethods(resolver: R.DependencyResolver, file: FileDescriptor, methods: seq<MethodDescriptor>, imports: map<string, ImportValues>)
    returns (records: seq<ServiceMethodValues>, newImports: map<string, ImportValues>)
    requires Named(resolver.v)
    ensures records == MethodRecords(resolver.v, file, methods)
    ensures newImports == MethodImports(resolver.v, file, imports, methods)
  {
    records := [];
    newImports := imports;
    for i := 0 to |methods|
      invariant records == MethodRecords(resolver.v, file, methods[..i])
      invariant newImports == MethodImports(resolver.v, file, imports, methods[..i])
    {
      var md := methods[i];
      MethodImportsStep(resolver.v, file, imports, methods, i);
      MethodRecordsStep(resolver.v, file, methods, i);
      ghost var prev := newImports;
      var input := R.Resolve(resolver.v, md.inputType);
      if input.Ok? && !R.SamePackage(input.value, file) {
        newImports := newImports[input.value.name := ImportValues(ImportName(input.value), ImportPath(input.value.name))];
      }
      AddImportCases(resolver.v, file, prev, md.inputType);
      ghost var mid := newImports;
      var output := R.Resolve(resolver.v, md.outputType);
      if output.Ok? && !R.SamePackage(output.value, file) {
        newImports := newImports[output.value.name := ImportValues(ImportName(output.value), ImportPath(output.value.name))];
      }
      AddImportCases(resolver.v, file, mid, md.outputType);
      var record := ServiceMethodValues(md.name, "", R.TypeName(resolver.v, file, RemovePkg(md.inputType)), R.TypeName(resolver.v, file, RemovePkg(md.outputType)));
      assert record == MethodRecord(resolver.v, file, md);
      records := records + [record];
    }
    assert methods[..|methods|] == methods;
  }

  method AddServices(resolver: R.DependencyResolver, file: FileDescriptor, pfile: ProtoFile) returns (out: ProtoFile)
    requires Named(resolver.v) && file.name != ""
    modifies resolver
    ensures Named(resolver.v)
    ensures Build(resolver.v, out) == ServicesBuild(Build(old(resolver.v), pfile), file, file.services)
  {
    out := pfile;
    for i := 0 to |file.services|
      invariant Named(resolver.v)
      invariant Build(resolver.v, out) == ServicesBuild(Build(old(resolver.v), pfile), file, file.services[..i])
    {
      var s := file.services[i];
      resolver.Set(file, s.name);
      var methods, imports := ServiceMethods(resolver, file, s.methods, out.imports);
      var v := ServiceValues(s.name, file.package, methods);
      out := out.(services := out.services + [v], imports := imports);
      assert file.services[..i + 1][..i] == file.services[..i];
    }
    assert file.services[..|file.services|] == file.services;
  }

  /** generate: one resolver for the whole request, the runtime file first, then
      each input file's records under its ".ts" name. */
  method Generate(files: seq<FileDescriptor>) returns (res: seq<ResponseFile>)
    requires AllNamed(files)
    ensures res == Response(files)
  {
    var resolver := new R.DependencyResolver();
    res := [ResponseFile(TwirpFileName, TwirpSource)];
    assert files[..0] == [];
    for i := 0 to |files|
      invariant resolver.v == FilesBuild(files[..i]).table
      invariant res == Response(files[..i])
    {
      var file := files[i];
      ResponseStep(files, i);
      FilesBuildStep(files, i);
      ghost var before := FilesBuild(files[..i]);
      var pfile := EmptyProtoFile;
      pfile := AddEnums(resolver, file, pfile);
      pfile := AddMessages(resolver, file, pfile);
      pfile := AddServices(resolver, file, pfile);
      assert Build(resolver.v, pfile) == FileBuild(before.table, file);
      var fileName := TsFileName(file.name);
      res := res + [ResponseFile(fileName, Compiled(pfile))];
      assert res[i + 1] == FileOutput(files, i);
    }
    assert files[..|files|] == files;
  }
}
