/** What generate guarantees about the table it builds, the records it emits and
    the imports it collects. */
module GeneratorFacts {
  import opened GoStrings
  import opened Descriptors
  import opened Naming
  import opened Templates
  import opened Generator
  import TM = TypeMapping
  import R = Resolver

  // ---------------------------------------------------------------------------
  // The table: each file owns the keys of the names it declares.

  /** The table entries pointing every key in `keys` at `fd`. */
  function Owned(keys: set<string>, fd: FileDescriptor): map<string, FileDescriptor> {
    map k | k in keys :: fd
  }

  function EnumKeys(file: FileDescriptor, enums: seq<EnumDescriptor>): set<string>
    decreases |enums|
  {
    if enums == [] then {}
    else EnumKeys(file, enums[..|enums| - 1]) + {R.FullTypeName(file, enums[|enums| - 1].name)}
  }

  function MessageKeys(file: FileDescriptor, messages: seq<MessageDescriptor>): set<string>
    decreases |messages|
  {
    if messages == [] then {}
    else
      var n := messages[|messages| - 1].name;
      MessageKeys(file, messages[..|messages| - 1]) +
        {R.FullTypeName(file, n), R.FullTypeName(file, n + "Model"), R.FullTypeName(file, n + "JSON")}
  }

  function ServiceKeys(file: FileDescriptor, services: seq<ServiceDescriptor>): set<string>
    decreases |services|
  {
    if services == [] then {}
    else ServiceKeys(file, services[..|services| - 1]) + {R.FullTypeName(file, services[|services| - 1].name)}
  }

  /** Every key a file registers. */
  function FileKeys(file: FileDescriptor): set<string> {
    EnumKeys(file, file.enums) + MessageKeys(file, file.messages) + ServiceKeys(file, file.services)
  }

  lemma OwnedGrows(t: R.Table, keys: set<string>, fd: FileDescriptor, k: string)
    ensures (t + Owned(keys, fd))[k := fd] == t + Owned(keys + {k}, fd)
  {
  }

  lemma OwnedUnion(t: R.Table, a: set<string>, b: set<string>, fd: FileDescriptor)
    ensures t + Owned(a, fd) + Owned(b, fd) == t + Owned(a + b, fd)
  {
  }

  lemma RegisterMessageOwned(t: R.Table, keys: set<string>, file: FileDescriptor, n: string)
    ensures RegisterMessage(t + Owned(keys, file), file, n) ==
              t + Owned(keys + {R.FullTypeName(file, n), R.FullTypeName(file, n + "Model"), R.FullTypeName(file, n + "JSON")}, file)
  {
    var k1, k2, k3 := R.FullTypeName(file, n), R.FullTypeName(file, n + "Model"), R.FullTypeName(file, n + "JSON");
    OwnedGrows(t, keys, file, k1);
    OwnedGrows(t, keys + {k1}, file, k2);
    OwnedGrows(t, keys + {k1, k2}, file, k3);
    assert keys + {k1} + {k2} == keys + {k1, k2};
    assert keys + {k1, k2} + {k3} == keys + {k1, k2, k3};
  }

  lemma {:induction false} EnumsBuildTable(b: Build, file: FileDescriptor, enums: seq<EnumDescriptor>)
    ensures EnumsBuild(b, file, enums).table == b.table + Owned(EnumKeys(file, enums), file)
    decreases |enums|
  {
    if enums != [] {
      var prefix := enums[..|enums| - 1];
      EnumsBuildTable(b, file, prefix);
      OwnedGrows(b.table, EnumKeys(file, prefix), file, R.FullTypeName(file, enums[|enums| - 1].name));
    }
  }

  lemma {:induction false} MessagesBuildTable(b: Build, file: FileDescriptor, messages: seq<MessageDescriptor>)
    requires Named(b.table) && file.name != ""
    ensures MessagesBuild(b, file, messages).table == b.table + Owned(MessageKeys(file, messages), file)
    decreases |messages|
  {
    if messages != [] {
      var prefix := messages[..|messages| - 1];
      MessagesBuildTable(b, file, prefix);
      var p := MessagesBuild(b, file, prefix);
      var n := messages[|messages| - 1].name;
      assert MessagesBuild(b, file, messages).table == RegisterMessage(p.table, file, n);
      RegisterMessageOwned(b.table, MessageKeys(file, prefix), file, n);
    }
  }

  lemma {:induction false} ServicesBuildTable(b: Build, file: FileDescriptor, services: seq<ServiceDescriptor>)
    requires Named(b.table) && file.name != ""
    ensures ServicesBuild(b, file, services).table == b.table + Owned(ServiceKeys(file, services), file)
    decreases |services|
  {
    if services != [] {
      var prefix := services[..|services| - 1];
      ServicesBuildTable(b, file, prefix);
      OwnedGrows(b.table, ServiceKeys(file, prefix), file, R.FullTypeName(file, services[|services| - 1].name));
    }
  }

  /** After a file, its keys resolve to it and every other key as before. */
  lemma FileBuildTable(t: R.Table, file: FileDescriptor)
    requires Named(t) && file.name != ""
    ensures FileBuild(t, file).table == t + Owned(FileKeys(file), file)
  {
    var b0 := Build(t, EmptyProtoFile);
    var b1 := EnumsBuild(b0, file, file.enums);
    var b2 := MessagesBuild(b1, file, file.messages);
    EnumsBuildTable(b0, file, file.enums);
    MessagesBuildTable(b1, file, file.messages);
    ServicesBuildTable(b2, file, file.services);
    assert FileBuild(t, file) == ServicesBuild(b2, file, file.services);
    OwnedUnion(t, EnumKeys(file, file.enums), MessageKeys(file, file.messages), file);
    OwnedUnion(t, EnumKeys(file, file.enums) + MessageKeys(file, file.messages), ServiceKeys(file, file.services), file);
  }

  /** Every enum, message (with its Model and JSON names) and service of a file
      resolves to that file once the file is done. */
  lemma FileBuildResolves(t: R.Table, file: FileDescriptor, name: string)
    requires Named(t) && file.name != ""
    requires R.FullTypeName(file, name) in FileKeys(file)
    ensures R.Resolve(FileBuild(t, file).table, R.FullTypeName(file, name)) == Ok(file)
  {
    FileBuildTable(t, file);
  }

  // ---------------------------------------------------------------------------
  // The records: one per declaration, in declaration order.

  lemma {:induction false} EnumsBuildRecords(b: Build, file: FileDescriptor, enums: seq<EnumDescriptor>)
    ensures var r := EnumsBuild(b, file, enums).pfile;
            r.messages == b.pfile.messages && r.services == b.pfile.services && r.imports == b.pfile.imports &&
            |r.enums| == |b.pfile.enums| + |enums| && r.enums[..|b.pfile.enums|] == b.pfile.enums &&
            forall i :: 0 <= i < |enums| ==> r.enums[|b.pfile.enums| + i] == EnumRecord(enums[i])
    decreases |enums|
  {
    if enums != [] {
      var prefix := enums[..|enums| - 1];
      EnumsBuildRecords(b, file, prefix);
      var p := EnumsBuild(b, file, prefix).pfile;
      var r := EnumsBuild(b, file, enums).pfile;
      assert r.enums == p.enums + [EnumRecord(enums[|enums| - 1])];
      forall i | 0 <= i < |enums| ensures r.enums[|b.pfile.enums| + i] == EnumRecord(enums[i]) {
        if i < |prefix| {
          assert prefix[i] == enums[i];
        }
      }
    }
  }

  predicate MessagesBuildRecordsLength(b: Build, file: FileDescriptor, messages: seq<MessageDescriptor>)
    requires Named(b.table) && file.name != ""
  {
    |MessagesBuild(b, file, messages).pfile.messages| == |b.pfile.messages| + |messages|
  }

  predicate ServicesBuildRecordsLength(b: Build, file: FileDescriptor, services: seq<ServiceDescriptor>)
    requires Named(b.table) && file.name != ""
  {
    |ServicesBuild(b, file, services).pfile.services| == |b.pfile.services| + |services|
  }

  lemma MessagesBuildLast(b: Build, file: FileDescriptor, messages: seq<MessageDescriptor>)
    requires Named(b.table) && file.name != "" && messages != []
    ensures var p := MessagesBuild(b, file, messages[..|messages| - 1]);
            var r := MessagesBuild(b, file, messages);
            r.pfile.enums == p.pfile.enums && r.pfile.services == p.pfile.services &&
            r.pfile.messages == p.pfile.messages + [MessageRecord(r.table, file, messages[|messages| - 1])]
  {
  }

  lemma ServicesBuildLast(b: Build, file: FileDescriptor, services: seq<ServiceDescriptor>)
    requires Named(b.table) && file.name != "" && services != []
    ensures var p := ServicesBuild(b, file, services[..|services| - 1]);
            var r := ServicesBuild(b, file, services);
            r.pfile.enums == p.pfile.enums && r.pfile.messages == p.pfile.messages &&
            r.pfile.services == p.pfile.services + [ServiceRecord(r.table, file, services[|services| - 1])]
  {
  }

  /** Each message's record is built on the table just after its own names are
      registered. */
  lemma {:induction false} MessagesBuildRecords(b: Build, file: FileDescriptor, messages: seq<MessageDescriptor>)
    requires Named(b.table) && file.name != ""
    ensures var r := MessagesBuild(b, file, messages).pfile;
            r.enums == b.pfile.enums && r.services == b.pfile.services &&
            |r.messages| == |b.pfile.messages| + |messages| && r.messages[..|b.pfile.messages|] == b.pfile.messages
    decreases |messages|
  {
    if messages != [] {
      var prefix := messages[..|messages| - 1];
      MessagesBuildRecords(b, file, prefix);
      MessagesBuildLast(b, file, messages);
    }
  }

  lemma MessagesBuildKeepsEarlier(b: Build, file: FileDescriptor, messages: seq<MessageDescriptor>, k: nat)
    requires Named(b.table) && file.name != "" && messages != []
    requires k < |b.pfile.messages| + |messages| - 1
    ensures MessagesBuildRecordsLength(b, file, messages)
    ensures MessagesBuild(b, file, messages).pfile.messages[k] == MessagesBuild(b, file, messages[..|messages| - 1]).pfile.messages[k]
  {
    MessagesBuildRecords(b, file, messages[..|messages| - 1]);
    MessagesBuildLast(b, file, messages);
  }

  lemma MessagesBuildLastRecord(b: Build, file: FileDescriptor, messages: seq<MessageDescriptor>)
    requires Named(b.table) && file.name != "" && messages != []
    ensures MessagesBuildRecordsLength(b, file, messages)
    ensures MessagesBuild(b, file, messages).pfile.messages[|b.pfile.messages| + |messages| - 1] ==
              MessageRecord(MessagesBuild(b, file, messages).table, file, messages[|messages| - 1])
  {
    MessagesBuildRecords(b, file, messages[..|messages| - 1]);
    MessagesBuildLast(b, file, messages);
  }

  lemma MessagesBuildEarlierRecord(b: Build, file: FileDescriptor, messages: seq<MessageDescriptor>, i: nat)
    requires Named(b.table) && file.name != "" && i < |messages| - 1
    requires MessagesBuildRecordsLength(b, file, messages[..|messages| - 1])
    requires MessagesBuild(b, file, messages[..|messages| - 1]).pfile.messages[|b.pfile.messages| + i] ==
               MessageRecord(MessagesBuild(b, file, messages[..|messages| - 1][..i + 1]).table, file, messages[..|messages| - 1][i])
    ensures MessagesBuildRecordsLength(b, file, messages)
    ensures MessagesBuild(b, file, messages).pfile.messages[|b.pfile.messages| + i] ==
              MessageRecord(MessagesBuild(b, file, messages[..i + 1]).table, file, messages[i])
  {
    var prefix := messages[..|messages| - 1];
    MessagesBuildKeepsEarlier(b, file, messages, |b.pfile.messages| + i);
    assert prefix[..i + 1] == messages[..i + 1];
  }

  /** Message record i is built on the table just after message i's own names are
      registered. */
  lemma {:induction false} MessagesBuildRecordAt(b: Build, file: FileDescriptor, messages: seq<MessageDescriptor>, i: nat)
    requires Named(b.table) && file.name != "" && i < |messages|
    ensures MessagesBuildRecordsLength(b, file, messages)
    ensures MessagesBuild(b, file, messages).pfile.messages[|b.pfile.messages| + i] ==
              MessageRecord(MessagesBuild(b, file, messages[..i + 1]).table, file, messages[i])
    decreases |messages|
  {
    var prefix := messages[..|messages| - 1];
    if i < |prefix| {
      MessagesBuildRecordAt(b, file, prefix, i);
      MessagesBuildEarlierRecord(b, file, messages, i);
    } else {
      MessagesBuildRecordAtLast(b, file, messages, i);
    }
  }

  lemma MessagesBuildRecordAtLast(b: Build, file: FileDescriptor, messages: seq<MessageDescriptor>, i: nat)
    requires Named(b.table) && file.name != "" && i == |messages| - 1
    ensures MessagesBuildRecordsLength(b, file, messages)
    ensures MessagesBuild(b, file, messages).pfile.messages[|b.pfile.messages| + i] ==
              MessageRecord(MessagesBuild(b, file, messages[..i + 1]).table, file, messages[i])
  {
    MessagesBuildLastRecord(b, file, messages);
    assert messages[..i + 1] == messages;
  }

  lemma {:induction false} ServicesBuildRecords(b: Build, file: FileDescriptor, services: seq<ServiceDescriptor>)
    requires Named(b.table) && file.name != ""
    ensures var r := ServicesBuild(b, file, services).pfile;
            r.enums == b.pfile.enums && r.messages == b.pfile.messages &&
            |r.services| == |b.pfile.services| + |services| && r.services[..|b.pfile.services|] == b.pfile.services
    decreases |services|
  {
    if services != [] {
      ServicesBuildRecords(b, file, services[..|services| - 1]);
      ServicesBuildLast(b, file, services);
    }
  }

  lemma ServicesBuildKeepsEarlier(b: Build, file: FileDescriptor, services: seq<ServiceDescriptor>, k: nat)
    requires Named(b.table) && file.name != "" && services != []
    requires k < |b.pfile.services| + |services| - 1
    ensures ServicesBuildRecordsLength(b, file, services)
    ensures ServicesBuild(b, file, services).pfile.services[k] == ServicesBuild(b, file, services[..|services| - 1]).pfile.services[k]
  {
    ServicesBuildRecords(b, file, services[..|services| - 1]);
    ServicesBuildLast(b, file, services);
  }

  lemma ServicesBuildLastRecord(b: Build, file: FileDescriptor, services: seq<ServiceDescriptor>)
    requires Named(b.table) && file.name != "" && services != []
    ensures ServicesBuildRecordsLength(b, file, services)
    ensures ServicesBuild(b, file, services).pfile.services[|b.pfile.services| + |services| - 1] ==
              ServiceRecord(ServicesBuild(b, file, services).table, file, services[|services| - 1])
  {
    ServicesBuildRecords(b, file, services[..|services| - 1]);
    ServicesBuildLast(b, file, services);
  }

  lemma ServicesBuildEarlierRecord(b: Build, file: FileDescriptor, services: seq<ServiceDescriptor>, i: nat)
    requires Named(b.table) && file.name != "" && i < |services| - 1
    requires ServicesBuildRecordsLength(b, file, services[..|services| - 1])
    requires ServicesBuild(b, file, services[..|services| - 1]).pfile.services[|b.pfile.services| + i] ==
               ServiceRecord(ServicesBuild(b, file, services[..|services| - 1][..i + 1]).table, file, services[..|services| - 1][i])
    ensures ServicesBuildRecordsLength(b, file, services)
    ensures ServicesBuild(b, file, services).pfile.services[|b.pfile.services| + i] ==
              ServiceRecord(ServicesBuild(b, file, services[..i + 1]).table, file, services[i])
  {
    var prefix := services[..|services| - 1];
    ServicesBuildKeepsEarlier(b, file, services, |b.pfile.services| + i);
    assert prefix[..i + 1] == services[..i + 1];
  }

  lemma {:induction false} ServicesBuildRecordAt(b: Build, file: FileDescriptor, services: seq<ServiceDescriptor>, i: nat)
    requires Named(b.table) && file.name != "" && i < |services|
    ensures ServicesBuildRecordsLength(b, file, services)
    ensures ServicesBuild(b, file, services).pfile.services[|b.pfile.services| + i] ==
              ServiceRecord(ServicesBuild(b, file, services[..i + 1]).table, file, services[i])
    decreases |services|
  {
    var prefix := services[..|services| - 1];
    if i < |prefix| {
      ServicesBuildRecordAt(b, file, prefix, i);
      ServicesBuildEarlierRecord(b, file, services, i);
    } else {
      ServicesBuildRecordAtLast(b, file, services, i);
    }
  }

  lemma ServicesBuildRecordAtLast(b: Build, file: FileDescriptor, services: seq<ServiceDescriptor>, i: nat)
    requires Named(b.table) && file.name != "" && i == |services| - 1
    ensures ServicesBuildRecordsLength(b, file, services)
    ensures ServicesBuild(b, file, services).pfile.services[|b.pfile.services| + i] ==
              ServiceRecord(ServicesBuild(b, file, services[..i + 1]).table, file, services[i])
  {
    ServicesBuildLastRecord(b, file, services);
    assert services[..i + 1] == services;
  }

  /** The three passes of one file, named. */
  function AfterEnums(t: R.Table, file: FileDescriptor): Build {
    EnumsBuild(Build(t, EmptyProtoFile), file, file.enums)
  }

  function AfterMessages(t: R.Table, file: FileDescriptor): Build
    requires Named(t) && file.name != ""
  {
    MessagesBuild(AfterEnums(t, file), file, file.messages)
  }

  lemma FileBuildPasses(t: R.Table, file: FileDescriptor)
    requires Named(t) && file.name != ""
    ensures Named(AfterEnums(t, file).table)
    ensures var p := FileBuild(t, file).pfile;
            p.enums == AfterEnums(t, file).pfile.enums && |p.enums| == |file.enums| &&
            p.messages == AfterMessages(t, file).pfile.messages && |p.messages| == |file.messages| &&
            |p.services| == |file.services|
  {
    EnumsBuildRecords(Build(t, EmptyProtoFile), file, file.enums);
    MessagesBuildRecords(AfterEnums(t, file), file, file.messages);
    ServicesBuildRecords(AfterMessages(t, file), file, file.services);
  }

  /** A file's output declares its enums verbatim, in order. */
  lemma FileEnums(t: R.Table, file: FileDescriptor)
    requires Named(t) && file.name != ""
    ensures var p := FileBuild(t, file).pfile;
            |p.enums| == |file.enums| && forall i :: 0 <= i < |file.enums| ==> p.enums[i] == EnumRecord(file.enums[i])
  {
    FileBuildPasses(t, file);
    EnumsBuildFromEmpty(t, file);
  }

  lemma EnumsBuildFromEmpty(t: R.Table, file: FileDescriptor)
    ensures var e := AfterEnums(t, file).pfile.enums;
            |e| == |file.enums| && forall i :: 0 <= i < |file.enums| ==> e[i] == EnumRecord(file.enums[i])
  {
    EnumsBuildRecords(Build(t, EmptyProtoFile), file, file.enums);
  }

  /** Message i of a file's output is message i's record: the class, Model and JSON
      interface names, and one field record per field, built on the table right
      after the message registered its names. */
  lemma FileMessage(t: R.Table, file: FileDescriptor, i: nat)
    requires Named(t) && file.name != "" && i < |file.messages|
    ensures var p := FileBuild(t, file).pfile;
            i < |p.messages| &&
            p.messages[i] == MessageRecord(MessagesBuild(AfterEnums(t, file), file, file.messages[..i + 1]).table, file, file.messages[i]) &&
            p.messages[i].name == file.messages[i].name &&
            p.messages[i].tsType == ModelName(file.messages[i].name) &&
            p.messages[i].jsonType == file.messages[i].name + "JSON" &&
            |p.messages[i].fields| == |file.messages[i].fields|
  {
    FileBuildPasses(t, file);
    MessagesBuildRecordAt(AfterEnums(t, file), file, file.messages, i);
  }

  /** Service i of a file's output has service i's name, the file's package and one
      method record per rpc. */
  lemma FileService(t: R.Table, file: FileDescriptor, i: nat)
    requires Named(t) && file.name != "" && i < |file.services|
    ensures var p := FileBuild(t, file).pfile;
            i < |p.services| &&
            p.services[i].name == file.services[i].name &&
            p.services[i].package == file.package &&
            |p.services[i].methods| == |file.services[i].methods|
  {
    FileBuildPasses(t, file);
    ServicesBuildRecordAt(AfterMessages(t, file), file, file.services, i);
  }

  /** Field j of message i keeps the field's name and repeated flag. */
  lemma FieldRecordOf(t: R.Table, file: FileDescriptor, i: nat, j: nat)
    requires Named(t) && file.name != ""
    requires i < |file.messages| && j < |file.messages[i].fields|
    ensures var p := FileBuild(t, file).pfile;
            i < |p.messages| && j < |p.messages[i].fields| &&
            p.messages[i].fields[j].name == file.messages[i].fields[j].name &&
            p.messages[i].fields[j].isRepeated == TM.IsRepeated(file.messages[i].fields[j])
  {
    FileMessage(t, file, i);
    var ti := MessagesBuild(AfterEnums(t, file), file, file.messages[..i + 1]).table;
    FieldRecordsAt(ti, file, file.messages[i].fields, j);
  }

  // ---------------------------------------------------------------------------
  // Imports: each names a file that is already known and is not the same package
  // and file.

  /** Every file the table points to is one of `files`. */
  predicate FromFiles(t: R.Table, files: seq<FileDescriptor>) {
    forall k :: k in t ==> t[k] in files
  }

  /** Every import is keyed by the name of one of `files` that is not the same
      package and file as `file`, and holds that file's import name and path. */
  predicate ImportsFrom(imports: map<string, ImportValues>, file: FileDescriptor, files: seq<FileDescriptor>) {
    forall k :: k in imports ==>
      exists fd :: fd in files && fd.name == k && k != "" && !R.SamePackage(fd, file) &&
                   imports[k] == ImportValues(ImportName(fd), ImportPath(k))
  }

  lemma AddImportFrom(t: R.Table, file: FileDescriptor, imports: map<string, ImportValues>, typeName: string, files: seq<FileDescriptor>)
    requires Named(t) && FromFiles(t, files) && ImportsFrom(imports, file, files)
    ensures ImportsFrom(AddImport(t, file, imports, typeName), file, files)
  {
    if typeName in t && !R.SamePackage(t[typeName], file) {
      var fp := t[typeName];
      assert fp in files && fp.name != "";
      assert AddImport(t, file, imports, typeName) == imports[fp.name := ImportValues(ImportName(fp), ImportPath(fp.name))];
      ImportAddedFrom(imports, file, files, fp);
    }
  }

  /** Adding the import of one of `files` from another package keeps ImportsFrom. */
  lemma ImportAddedFrom(imports: map<string, ImportValues>, file: FileDescriptor, files: seq<FileDescriptor>, fp: FileDescriptor)
    requires ImportsFrom(imports, file, files)
    requires fp in files && fp.name != "" && !R.SamePackage(fp, file)
    ensures ImportsFrom(imports[fp.name := ImportValues(ImportName(fp), ImportPath(fp.name))], file, files)
  {
    var r := imports[fp.name := ImportValues(ImportName(fp), ImportPath(fp.name))];
    forall k | k in r
      ensures exists fd :: fd in files && fd.name == k && k != "" && !R.SamePackage(fd, file) &&
                           r[k] == ImportValues(ImportName(fd), ImportPath(k))
    {
      if k == fp.name {
        assert r[k] == ImportValues(ImportName(fp), ImportPath(k));
      } else {
        assert k in imports && r[k] == imports[k];
      }
    }
  }

  lemma {:induction false} FieldImportsFrom(t: R.Table, file: FileDescriptor, imports: map<string, ImportValues>, fields: seq<FieldDescriptor>, files: seq<FileDescriptor>)
    requires Named(t) && FromFiles(t, files) && ImportsFrom(imports, file, files)
    ensures ImportsFrom(FieldImports(t, file, imports, fields), file, files)
    decreases |fields|
  {
    if fields != [] {
      FieldImportsFrom(t, file, imports, fields[..|fields| - 1], files);
      AddImportFrom(t, file, FieldImports(t, file, imports, fields[..|fields| - 1]), fields[|fields| - 1].typeName, files);
    }
  }

  lemma {:induction false} MethodImportsFrom(t: R.Table, file: FileDescriptor, imports: map<string, ImportValues>, methods: seq<MethodDescriptor>, files: seq<FileDescriptor>)
    requires Named(t) && FromFiles(t, files) && ImportsFrom(imports, file, files)
    ensures ImportsFrom(MethodImports(t, file, imports, methods), file, files)
    decreases |methods|
  {
    if methods != [] {
      var md := methods[|methods| - 1];
      var before := MethodImports(t, file, imports, methods[..|methods| - 1]);
      MethodImportsFrom(t, file, imports, methods[..|methods| - 1], files);
      AddImportFrom(t, file, before, md.inputType, files);
      AddImportFrom(t, file, AddImport(t, file, before, md.inputType), md.outputType, files);
    }
  }

  lemma MessagesBuildImportsLast(b: Build, file: FileDescriptor, messages: seq<MessageDescriptor>)
    requires Named(b.table) && file.name != "" && messages != []
    ensures var p := MessagesBuild(b, file, messages[..|messages| - 1]);
            var r := MessagesBuild(b, file, messages);
            r.table == RegisterMessage(p.table, file, messages[|messages| - 1].name) &&
            r.pfile.imports == FieldImports(r.table, file, p.pfile.imports, messages[|messages| - 1].fields)
  {
  }

  lemma ServicesBuildImportsLast(b: Build, file: FileDescriptor, services: seq<ServiceDescriptor>)
    requires Named(b.table) && file.name != "" && services != []
    ensures var p := ServicesBuild(b, file, services[..|services| - 1]);
            var r := ServicesBuild(b, file, services);
            r.table == R.Register(p.table, file, services[|services| - 1].name) &&
            r.pfile.imports == MethodImports(r.table, file, p.pfile.imports, services[|services| - 1].methods)
  {
  }

  lemma {:induction false} EnumsBuildFrom(b: Build, file: FileDescriptor, enums: seq<EnumDescriptor>, files: seq<FileDescriptor>)
    requires file in files && FromFiles(b.table, files)
    ensures FromFiles(EnumsBuild(b, file, enums).table, files)
    decreases |enums|
  {
    if enums != [] {
      EnumsBuildFrom(b, file, enums[..|enums| - 1], files);
    }
  }

  lemma {:induction false} MessagesBuildImports(b: Build, file: FileDescriptor, messages: seq<MessageDescriptor>, files: seq<FileDescriptor>)
    requires Named(b.table) && file.name != "" && file in files
    requires FromFiles(b.table, files) && ImportsFrom(b.pfile.imports, file, files)
    ensures var r := MessagesBuild(b, file, messages);
            FromFiles(r.table, files) && ImportsFrom(r.pfile.imports, file, files)
    decreases |messages|
  {
    if messages != [] {
      var prefix := messages[..|messages| - 1];
      MessagesBuildImports(b, file, prefix, files);
      MessagesBuildImportsLast(b, file, messages);
      var p := MessagesBuild(b, file, prefix);
      var t := RegisterMessage(p.table, file, messages[|messages| - 1].name);
      assert FromFiles(t, files);
      FieldImportsFrom(t, file, p.pfile.imports, messages[|messages| - 1].fields, files);
    }
  }

  lemma {:induction false} ServicesBuildImports(b: Build, file: FileDescriptor, services: seq<ServiceDescriptor>, files: seq<FileDescriptor>)
    requires Named(b.table) && file.name != "" && file in files
    requires FromFiles(b.table, files) && ImportsFrom(b.pfile.imports, file, files)
    ensures var r := ServicesBuild(b, file, services);
            FromFiles(r.table, files) && ImportsFrom(r.pfile.imports, file, files)
    decreases |services|
  {
    if services != [] {
      var prefix := services[..|services| - 1];
      ServicesBuildImports(b, file, prefix, files);
      ServicesBuildImportsLast(b, file, services);
      var p := ServicesBuild(b, file, prefix);
      var t := R.Register(p.table, file, services[|services| - 1].name);
      assert FromFiles(t, files);
      MethodImportsFrom(t, file, p.pfile.imports, services[|services| - 1].methods, files);
    }
  }

  /** A file's imports name files of the given list, each of another package or file
      name than the file itself. */
  lemma FileBuildImports(t: R.Table, file: FileDescriptor, files: seq<FileDescriptor>)
    requires Named(t) && file.name != "" && file in files && FromFiles(t, files)
    ensures FromFiles(FileBuild(t, file).table, files)
    ensures ImportsFrom(FileBuild(t, file).pfile.imports, file, files)
  {
    var b0 := Build(t, EmptyProtoFile);
    EnumsBuildFrom(b0, file, file.enums, files);
    EnumsBuildRecords(b0, file, file.enums);
    var b1 := EnumsBuild(b0, file, file.enums);
    MessagesBuildImports(b1, file, file.messages, files);
    ServicesBuildImports(MessagesBuild(b1, file, file.messages), file, file.services, files);
  }

  lemma FromFilesGrows(t: R.Table, files: seq<FileDescriptor>, i: nat)
    requires i < |files| && FromFiles(t, files[..i])
    ensures FromFiles(t, files[..i + 1])
  {
    forall k | k in t ensures t[k] in files[..i + 1] {
      var j :| 0 <= j < i && files[..i][j] == t[k];
      assert files[..i + 1][j] == t[k];
    }
  }

  /** The table after the first i files points only into them. */
  lemma {:induction false} FilesBuildFrom(files: seq<FileDescriptor>, i: nat)
    requires AllNamed(files) && i <= |files|
    ensures AllNamed(files[..i]) && FromFiles(FilesBuild(files[..i]).table, files[..i])
  {
    if i == 0 {
      assert files[..0] == [];
    } else {
      FilesBuildFrom(files, i - 1);
      FilesBuildStep(files, i - 1);
      var t := FilesBuild(files[..i - 1]).table;
      FromFilesGrows(t, files, i - 1);
      assert files[..i][i - 1] == files[i - 1];
      FileBuildImports(t, files[i - 1], files[..i]);
    }
  }

  /** The imports of output file i all come from the first i + 1 input files. */
  lemma OutputImportsFrom(files: seq<FileDescriptor>, i: nat)
    requires AllNamed(files) && i < |files|
    ensures ImportsFrom(FileOutput(files, i).content.file.imports, files[i], files[..i + 1])
  {
    FilesBuildFrom(files, i);
    var t := FilesBuild(files[..i]).table;
    FromFilesGrows(t, files, i);
    assert files[..i + 1][i] == files[i];
    FileBuildImports(t, files[i], files[..i + 1]);
  }

  /** A file among the first i + 1 that is not file i itself comes before it. */
  lemma EarlierFile(files: seq<FileDescriptor>, i: nat, fd: FileDescriptor)
    requires i < |files| && fd in files[..i + 1] && fd != files[i]
    ensures exists j :: 0 <= j < i && files[j] == fd
  {
    var j :| 0 <= j < i + 1 && files[..i + 1][j] == fd;
    assert files[j] == fd;
  }

  /** Every import of output file i names an earlier input file j of another
      package or another file name, under j's import name, and its path with ".ts"
      is the name of output file j. */
  lemma ImportsResolve(files: seq<FileDescriptor>, i: nat, k: string)
    requires AllNamed(files) && i < |files|
    requires k in FileOutput(files, i).content.file.imports
    ensures var imports := FileOutput(files, i).content.file.imports;
            exists j :: 0 <= j < i && files[j].name == k && !R.SamePackage(files[j], files[i]) &&
                        imports[k] == ImportValues(ImportName(files[j]), ImportPath(k)) &&
                        Response(files)[j + 1].name == imports[k].path + ".ts"
  {
    var imports := FileOutput(files, i).content.file.imports;
    OutputImportsFrom(files, i);
    var fd :| fd in files[..i + 1] && fd.name == k && k != "" && !R.SamePackage(fd, files[i]) &&
              imports[k] == ImportValues(ImportName(fd), ImportPath(k));
    EarlierFile(files, i, fd);
    var j :| 0 <= j < i && files[j] == fd;
    ResponseFiles(files, j);
  }

  /** generate answers with twirp.ts first and then one compiled file per input, in
      input order, each named after its input's path without the extension. */
  lemma ResponseShape(files: seq<FileDescriptor>, i: nat)
    requires AllNamed(files) && i < |files|
    ensures |Response(files)| == |files| + 1
    ensures Response(files)[0] == ResponseFile(TwirpFileName, TwirpSource)
    ensures Response(files)[i + 1].name == ImportPath(files[i].name) + ".ts"
    ensures Response(files)[i + 1].content.Compiled?
  {
    ResponseFiles(files, i);
  }
}
