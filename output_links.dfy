/** Across the whole response: a message field of one output file names the model a
    message of an earlier or the same input declares, and its conversions call the
    converters that message's record declares in that input's output file. */
module OutputLinks {
  import opened GoStrings
  import opened Descriptors
  import opened Naming
  import opened Templates
  import opened Generator
  import TM = TypeMapping
  import R = Resolver
  import GF = GeneratorFacts
  import NA = NameAgreement

  // ---------------------------------------------------------------------------
  // Every key of the table is one its file registers.

  predicate KeysDeclared(t: R.Table) {
    forall k :: k in t ==> k in GF.FileKeys(t[k])
  }

  lemma OwnedKeysDeclared(t: R.Table, keys: set<string>, fd: FileDescriptor)
    requires KeysDeclared(t) && keys <= GF.FileKeys(fd)
    ensures KeysDeclared(t + GF.Owned(keys, fd))
  {
  }

  /** The first n messages register some of the keys of all of them. */
  lemma {:induction false} MessageKeysPrefix(fd: FileDescriptor, messages: seq<MessageDescriptor>, n: nat)
    requires n <= |messages|
    ensures GF.MessageKeys(fd, messages[..n]) <= GF.MessageKeys(fd, messages)
    decreases |messages|
  {
    if n < |messages| {
      var prefix := messages[..|messages| - 1];
      MessageKeysPrefix(fd, prefix, n);
      assert prefix[..n] == messages[..n];
    } else {
      assert messages[..n] == messages;
    }
  }

  /** After the first i files the table maps each key to a file that registers it. */
  lemma {:induction false} FilesBuildKeysDeclared(files: seq<FileDescriptor>, i: nat)
    requires AllNamed(files) && i <= |files|
    ensures AllNamed(files[..i]) && KeysDeclared(FilesBuild(files[..i]).table)
  {
    if i == 0 {
      assert files[..0] == [];
    } else {
      FilesBuildKeysDeclared(files, i - 1);
      FilesBuildStep(files, i - 1);
      var t := FilesBuild(files[..i - 1]).table;
      GF.FileBuildTable(t, files[i - 1]);
      OwnedKeysDeclared(t, GF.FileKeys(files[i - 1]), files[i - 1]);
    }
  }

  // ---------------------------------------------------------------------------
  // The table a field record is built on.

  /** The table the fields of message mi of input i are typed on: the earlier files'
      table, with input i's enums and its messages up to mi registered. */
  function FieldTable(files: seq<FileDescriptor>, i: nat, mi: nat): (t: R.Table)
    requires AllNamed(files) && i < |files| && mi < |files[i].messages|
    ensures Named(t)
  {
    assert AllNamed(files[..i]);
    MessagesBuild(GF.AfterEnums(FilesBuild(files[..i]).table, files[i]), files[i], files[i].messages[..mi + 1]).table
  }

  lemma FieldTableShape(files: seq<FileDescriptor>, i: nat, mi: nat)
    requires AllNamed(files) && i < |files| && mi < |files[i].messages|
    ensures AllNamed(files[..i])
    ensures var file := files[i];
            FieldTable(files, i, mi) ==
              FilesBuild(files[..i]).table + GF.Owned(GF.EnumKeys(file, file.enums), file) +
                GF.Owned(GF.MessageKeys(file, file.messages[..mi + 1]), file)
  {
    assert AllNamed(files[..i]);
    var file := files[i];
    var t := FilesBuild(files[..i]).table;
    GF.EnumsBuildTable(Build(t, EmptyProtoFile), file, file.enums);
    GF.MessagesBuildTable(GF.AfterEnums(t, file), file, file.messages[..mi + 1]);
  }

  /** That table points only into the first i + 1 inputs, each key at a file that
      registers it. */
  lemma FieldTableOwners(files: seq<FileDescriptor>, i: nat, mi: nat)
    requires AllNamed(files) && i < |files| && mi < |files[i].messages|
    ensures KeysDeclared(FieldTable(files, i, mi))
    ensures GF.FromFiles(FieldTable(files, i, mi), files[..i + 1])
  {
    FieldTableShape(files, i, mi);
    FieldTableKeysDeclared(files, i, mi);
    FieldTableFrom(files, i, mi);
  }

  lemma FieldTableKeysDeclared(files: seq<FileDescriptor>, i: nat, mi: nat)
    requires AllNamed(files) && i < |files| && mi < |files[i].messages|
    ensures AllNamed(files[..i])
    ensures var file := files[i];
            KeysDeclared(FilesBuild(files[..i]).table + GF.Owned(GF.EnumKeys(file, file.enums), file) +
                           GF.Owned(GF.MessageKeys(file, file.messages[..mi + 1]), file))
  {
    var file := files[i];
    FilesBuildKeysDeclared(files, i);
    var t := FilesBuild(files[..i]).table;
    MessageKeysPrefix(file, file.messages, mi + 1);
    OwnedKeysDeclared(t, GF.EnumKeys(file, file.enums), file);
    OwnedKeysDeclared(t + GF.Owned(GF.EnumKeys(file, file.enums), file), GF.MessageKeys(file, file.messages[..mi + 1]), file);
  }

  lemma FieldTableFrom(files: seq<FileDescriptor>, i: nat, mi: nat)
    requires AllNamed(files) && i < |files| && mi < |files[i].messages|
    ensures AllNamed(files[..i])
    ensures var file := files[i];
            GF.FromFiles(FilesBuild(files[..i]).table + GF.Owned(GF.EnumKeys(file, file.enums), file) +
                           GF.Owned(GF.MessageKeys(file, file.messages[..mi + 1]), file), files[..i + 1])
  {
    GF.FilesBuildFrom(files, i);
    var t := FilesBuild(files[..i]).table;
    GF.FromFilesGrows(t, files, i);
    assert files[..i + 1][i] == files[i];
  }

  // ---------------------------------------------------------------------------
  // Which declaration a key comes from.

  /** A protobuf identifier: no '.', and no array marker. */
  predicate SimpleName(n: string) {
    '.' !in n && !HasSuffix(n, "[]")
  }

  /** Every top-level declaration of the file has a simple name. */
  predicate SimpleNames(fd: FileDescriptor) {
    && (forall e :: 0 <= e < |fd.enums| ==> SimpleName(fd.enums[e].name))
    && (forall m :: 0 <= m < |fd.messages| ==> SimpleName(fd.messages[m].name))
    && (forall s :: 0 <= s < |fd.services| ==> SimpleName(fd.services[s].name))
  }

  predicate AllSimpleNames(files: seq<FileDescriptor>) {
    forall j :: 0 <= j < |files| ==> SimpleNames(files[j])
  }

  /** The file declares an enum, a message or a service named n. */
  predicate Declares(fd: FileDescriptor, n: string) {
    || (exists e :: 0 <= e < |fd.enums| && fd.enums[e].name == n)
    || (exists m :: 0 <= m < |fd.messages| && fd.messages[m].name == n)
    || (exists s :: 0 <= s < |fd.services| && fd.services[s].name == n)
  }

  /** No two inputs share a path, as in a protoc request. */
  predicate DistinctNames(files: seq<FileDescriptor>) {
    forall a, b :: 0 <= a < b < |files| ==> files[a].name != files[b].name
  }

  lemma {:induction false} EnumKeyOf(fd: FileDescriptor, enums: seq<EnumDescriptor>, k: string)
    requires k in GF.EnumKeys(fd, enums)
    ensures exists e :: 0 <= e < |enums| && k == R.FullTypeName(fd, enums[e].name)
    decreases |enums|
  {
    var prefix := enums[..|enums| - 1];
    if k in GF.EnumKeys(fd, prefix) {
      EnumKeyOf(fd, prefix, k);
      var e :| 0 <= e < |prefix| && k == R.FullTypeName(fd, prefix[e].name);
      assert prefix[e] == enums[e];
    } else {
      assert k == R.FullTypeName(fd, enums[|enums| - 1].name);
    }
  }

  lemma {:induction false} ServiceKeyOf(fd: FileDescriptor, services: seq<ServiceDescriptor>, k: string)
    requires k in GF.ServiceKeys(fd, services)
    ensures exists s :: 0 <= s < |services| && k == R.FullTypeName(fd, services[s].name)
    decreases |services|
  {
    var prefix := services[..|services| - 1];
    if k in GF.ServiceKeys(fd, prefix) {
      ServiceKeyOf(fd, prefix, k);
      var s :| 0 <= s < |prefix| && k == R.FullTypeName(fd, prefix[s].name);
      assert prefix[s] == services[s];
    } else {
      assert k == R.FullTypeName(fd, services[|services| - 1].name);
    }
  }

  /** A message key is the class, model or JSON key of one of the messages. */
  lemma {:induction false} MessageKeyOf(fd: FileDescriptor, messages: seq<MessageDescriptor>, k: string)
    requires k in GF.MessageKeys(fd, messages)
    ensures exists m :: 0 <= m < |messages| &&
              (k == R.FullTypeName(fd, messages[m].name) || k == R.FullTypeName(fd, messages[m].name + "Model") ||
               k == R.FullTypeName(fd, messages[m].name + "JSON"))
    decreases |messages|
  {
    var prefix := messages[..|messages| - 1];
    if k in GF.MessageKeys(fd, prefix) {
      MessageKeyOf(fd, prefix, k);
      var m :| 0 <= m < |prefix| &&
               (k == R.FullTypeName(fd, prefix[m].name) || k == R.FullTypeName(fd, prefix[m].name + "Model") ||
                k == R.FullTypeName(fd, prefix[m].name + "JSON"));
      assert prefix[m] == messages[m];
    }
  }

  /** Keys of two simple names agree only for the same package and name. */
  lemma SameKey(fd: FileDescriptor, file: FileDescriptor, n: string, y: string)
    requires SimpleName(n) && SimpleName(y) && R.FullTypeName(fd, n) == R.FullTypeName(file, y)
    ensures fd.package == file.package && n == y
  {
    NA.KeyDeterminesName(fd.package, n, file.package, y);
  }

  /** A name with "Model" or "JSON" appended is simple when the name is. */
  lemma SuffixedSimple(n: string)
    requires '.' !in n
    ensures SimpleName(n + "Model") && SimpleName(n + "JSON")
  {
    NA.ModelSuffix(n);
    NA.JsonSuffix(n);
  }

  /** The model key of x, registered by fd, is fd's own: fd is of the same package
      and declares a message x, or it declares an enum, message or service named
      "xModel". */
  lemma ModelKeyOwner(fd: FileDescriptor, file: FileDescriptor, x: string)
    requires SimpleNames(fd) && '.' !in x
    requires R.FullTypeName(file, x + "Model") in GF.FileKeys(fd)
    ensures fd.package == file.package
    ensures Declares(fd, x + "Model") || exists m :: 0 <= m < |fd.messages| && fd.messages[m].name == x
  {
    var k := R.FullTypeName(file, x + "Model");
    SuffixedSimple(x);
    if k in GF.EnumKeys(fd, fd.enums) {
      EnumKeyOf(fd, fd.enums, k);
      var e :| 0 <= e < |fd.enums| && k == R.FullTypeName(fd, fd.enums[e].name);
      SameKey(fd, file, fd.enums[e].name, x + "Model");
    } else if k in GF.ServiceKeys(fd, fd.services) {
      ServiceKeyOf(fd, fd.services, k);
      var s :| 0 <= s < |fd.services| && k == R.FullTypeName(fd, fd.services[s].name);
      SameKey(fd, file, fd.services[s].name, x + "Model");
    } else {
      MessageKeyOf(fd, fd.messages, k);
      var m :| 0 <= m < |fd.messages| &&
               (k == R.FullTypeName(fd, fd.messages[m].name) || k == R.FullTypeName(fd, fd.messages[m].name + "Model") ||
                k == R.FullTypeName(fd, fd.messages[m].name + "JSON"));
      MessageKeyCases(fd, file, x, m);
    }
  }

  lemma MessageKeyCases(fd: FileDescriptor, file: FileDescriptor, x: string, m: nat)
    requires SimpleNames(fd) && '.' !in x && m < |fd.messages|
    requires var n := fd.messages[m].name;
             var k := R.FullTypeName(file, x + "Model");
             k == R.FullTypeName(fd, n) || k == R.FullTypeName(fd, n + "Model") || k == R.FullTypeName(fd, n + "JSON")
    ensures fd.package == file.package
    ensures fd.messages[m].name == x + "Model" || fd.messages[m].name == x
  {
    var n := fd.messages[m].name;
    var k := R.FullTypeName(file, x + "Model");
    SuffixedSimple(x);
    SuffixedSimple(n);
    JsonKeyIsNoModelKey(fd, file, n, x);
    if k == R.FullTypeName(fd, n) {
      SameKey(fd, file, n, x + "Model");
    } else {
      SameKey(fd, file, n + "Model", x + "Model");
      SuffixCancels(n, x, "Model");
    }
  }

  /** No JSON key is a model key: the two end in different characters. */
  lemma JsonKeyIsNoModelKey(fd: FileDescriptor, file: FileDescriptor, n: string, x: string)
    ensures R.FullTypeName(fd, n + "JSON") != R.FullTypeName(file, x + "Model")
  {
    NA.JsonSuffix(n);
    NA.ModelSuffix(x);
    var a, b := n + "JSON", x + "Model";
    var ka, kb := R.FullTypeName(fd, a), R.FullTypeName(file, b);
    assert ka == "." + fd.package + "." + a;
    assert kb == "." + file.package + "." + b;
    assert ka[|ka| - 1] == a[|a| - 1] == 'N';
    assert kb[|kb| - 1] == b[|b| - 1] == 'l';
  }

  lemma SuffixCancels(a: string, b: string, c: string)
    requires a + c == b + c
    ensures a == b
  {
    assert a == (a + c)[..|a|];
    assert b == (b + c)[..|b|];
  }

  // ---------------------------------------------------------------------------
  // The records of the outputs.

  /** The records of input j's output file. */
  function OutputRecords(files: seq<FileDescriptor>, j: nat): ProtoFile
    requires AllNamed(files) && j < |files|
  {
    FileOutput(files, j).content.file
  }

  /** Message m of output j is the record of input j's message m. */
  lemma OutputMessage(files: seq<FileDescriptor>, j: nat, m: nat)
    requires AllNamed(files) && j < |files| && m < |files[j].messages|
    ensures m < |OutputRecords(files, j).messages|
    ensures OutputRecords(files, j).messages[m] == MessageRecord(FieldTable(files, j, m), files[j], files[j].messages[m])
  {
    assert AllNamed(files[..j]);
    GF.FileMessage(FilesBuild(files[..j]).table, files[j], m);
  }

  /** Field fi of message mi of output i is that field's record on the table the
      message's fields are typed on. */
  lemma OutputField(files: seq<FileDescriptor>, i: nat, mi: nat, fi: nat)
    requires AllNamed(files) && i < |files| && mi < |files[i].messages| && fi < |files[i].messages[mi].fields|
    ensures mi < |OutputRecords(files, i).messages| && fi < |OutputRecords(files, i).messages[mi].fields|
    ensures OutputRecords(files, i).messages[mi].fields[fi] ==
              FieldRecord(FieldTable(files, i, mi), files[i], files[i].messages[mi].fields[fi])
  {
    OutputMessage(files, i, mi);
    FieldRecordsAt(FieldTable(files, i, mi), files[i], files[i].messages[mi].fields, fi);
  }

  /** toJSON and fromJSON of a field call the converters the record declares under
      the qualifier q (fromJSON when q is a simple alias), directly or element-wise. */
  predicate CallsDeclared(fv: FieldValues, q: string, rec: MessageValues) {
    && (CamelCaseSafe(fv.name) && (fv.isRepeated ==> |fv.tsType| >= 2) ==>
          var fn := q + DeclaredToJSON(rec);
          ToJSON(fv) == if fv.isRepeated then MapOver(CamelCaseOf(fv.name), fn) else CallOn(fn, CamelCaseOf(fv.name)))
    && ((fv.isRepeated ==> |fv.tsType| >= 2) && NA.SimpleQualifier(q) ==>
          var fn := q + DeclaredFromJSON(rec);
          FromJSON(fv) == if fv.isRepeated then MapOver(fv.name, fn) else CallOn(fn, fv.name))
  }

  lemma RecordCallsDeclared(t: R.Table, file: FileDescriptor, f: FieldDescriptor, t2: R.Table, file2: FileDescriptor, m: MessageDescriptor)
    requires f.fieldType == TypeMessage && !TM.IsTimestamp(f)
    requires m.name == RemovePkg(f.typeName)
    ensures CallsDeclared(FieldRecord(t, file, f), R.Qualifier(t, file, m.name + "Model"), MessageRecord(t2, file2, m))
  {
    var q := R.Qualifier(t, file, m.name + "Model");
    if CamelCaseSafe(f.name) {
      NA.ToJSONCallsDeclared(t, file, f, t2, file2, m);
    }
    if NA.SimpleQualifier(q) {
      NA.FromJSONCallsDeclared(t, file, f, t2, file2, m);
    }
  }

  // ---------------------------------------------------------------------------
  // The end-to-end statement.

  /** The file the model key of a field of output i resolves to is an input j <= i of
      the same package; the field's qualifier is empty exactly when j has i's path,
      and is j's alias otherwise. */
  lemma ModelKeyOwnerAt(files: seq<FileDescriptor>, i: nat, mi: nat, x: string)
    requires AllNamed(files) && AllSimpleNames(files) && i < |files| && mi < |files[i].messages| && '.' !in x
    requires R.FullTypeName(files[i], x + "Model") in FieldTable(files, i, mi)
    ensures var t := FieldTable(files, i, mi);
            var key := R.FullTypeName(files[i], x + "Model");
            exists j :: 0 <= j <= i && t[key] == files[j] && files[j].package == files[i].package &&
                        (Declares(files[j], x + "Model") || exists m :: 0 <= m < |files[j].messages| && files[j].messages[m].name == x)
  {
    var t := FieldTable(files, i, mi);
    var key := R.FullTypeName(files[i], x + "Model");
    FieldTableOwners(files, i, mi);
    OwnerIndex(files, i, t, key);
    var j :| 0 <= j <= i && files[j] == t[key];
    ModelKeyOwner(files[j], files[i], x);
  }

  lemma OwnerIndex(files: seq<FileDescriptor>, i: nat, t: R.Table, key: string)
    requires i < |files| && GF.FromFiles(t, files[..i + 1]) && key in t
    ensures exists j :: 0 <= j <= i && files[j] == t[key]
  {
    var j :| 0 <= j < i + 1 && files[..i + 1][j] == t[key];
    assert files[j] == t[key];
  }

  /** The qualifier of the model key, once the key resolves to files[j] of the same
      package: empty exactly for j's own path, and then j is i among distinct paths. */
  lemma QualifierOfOwner(files: seq<FileDescriptor>, i: nat, t: R.Table, x: string, j: nat)
    requires i < |files| && j <= i
    requires var key := R.FullTypeName(files[i], x + "Model"); key in t && t[key] == files[j]
    requires files[j].package == files[i].package
    ensures var q := R.Qualifier(t, files[i], x + "Model");
            && (q == if files[j].name == files[i].name then "" else ImportName(files[j]) + ".")
            && (q == "" && DistinctNames(files) ==> j == i)
  {
    if DistinctNames(files) && j < i {
      assert files[j].name != files[i].name;
    }
  }

  /** Message m of output j is the record of message x, and the conversions of field
      fi of message mi of output i call its converters. */
  predicate RecordLinked(files: seq<FileDescriptor>, i: nat, mi: nat, fi: nat, j: nat, m: nat)
    requires AllNamed(files) && i < |files| && j < |files|
    requires mi < |files[i].messages| && fi < |files[i].messages[mi].fields|
  {
    var f := files[i].messages[mi].fields[fi];
    var x := RemovePkg(f.typeName);
    var t := FieldTable(files, i, mi);
    && m < |OutputRecords(files, j).messages|
    && OutputRecords(files, j).messages[m].name == x
    && OutputRecords(files, j).messages[m].tsType == x + "Model"
    && CallsDeclared(FieldRecord(t, files[i], f), R.Qualifier(t, files[i], x + "Model"), OutputRecords(files, j).messages[m])
  }

  /** With files[j] declaring message x, its output's record of x declares the
      converters the field's conversions call. */
  lemma ConvertersOfOwner(files: seq<FileDescriptor>, i: nat, mi: nat, fi: nat, j: nat, m: nat)
    requires AllNamed(files) && i < |files| && j < |files|
    requires mi < |files[i].messages| && fi < |files[i].messages[mi].fields|
    requires var f := files[i].messages[mi].fields[fi];
             f.fieldType == TypeMessage && !TM.IsTimestamp(f)
    requires m < |files[j].messages| && files[j].messages[m].name == RemovePkg(files[i].messages[mi].fields[fi].typeName)
    ensures RecordLinked(files, i, mi, fi, j, m)
  {
    OutputMessage(files, j, m);
    RecordCallsDeclared(FieldTable(files, i, mi), files[i], files[i].messages[mi].fields[fi],
                        FieldTable(files, j, m), files[j], files[j].messages[m]);
  }

  /** How field fi of message mi of input i is linked to input j: its model key
      resolves to j, of the same package; its qualifier is empty exactly when j has
      i's path (so j is i among distinct paths) and is j's alias otherwise; and
      unless j also declares a name "xModel", output j holds the record of message x
      (model x + "Model") whose converters the field's conversions call. */
  predicate LinkedTo(files: seq<FileDescriptor>, i: nat, mi: nat, fi: nat, j: nat)
    requires AllNamed(files) && i < |files| && j < |files|
    requires mi < |files[i].messages| && fi < |files[i].messages[mi].fields|
  {
    var f := files[i].messages[mi].fields[fi];
    var x := RemovePkg(f.typeName);
    var t := FieldTable(files, i, mi);
    var key := R.FullTypeName(files[i], x + "Model");
    var q := R.Qualifier(t, files[i], x + "Model");
    && key in t && t[key] == files[j] && files[j].package == files[i].package
    && (q == if files[j].name == files[i].name then "" else ImportName(files[j]) + ".")
    && (q == "" && DistinctNames(files) ==> j == i)
    && (Declares(files[j], x + "Model") || exists m :: 0 <= m < |files[j].messages| && RecordLinked(files, i, mi, fi, j, m))
  }

  lemma LinkedToOwner(files: seq<FileDescriptor>, i: nat, mi: nat, fi: nat, j: nat)
    requires AllNamed(files) && i < |files| && j <= i
    requires mi < |files[i].messages| && fi < |files[i].messages[mi].fields|
    requires var f := files[i].messages[mi].fields[fi];
             f.fieldType == TypeMessage && !TM.IsTimestamp(f)
    requires var x := RemovePkg(files[i].messages[mi].fields[fi].typeName);
             var t := FieldTable(files, i, mi);
             var key := R.FullTypeName(files[i], x + "Model");
             && key in t && t[key] == files[j] && files[j].package == files[i].package
             && (Declares(files[j], x + "Model") || exists m :: 0 <= m < |files[j].messages| && files[j].messages[m].name == x)
    ensures LinkedTo(files, i, mi, fi, j)
  {
    var f := files[i].messages[mi].fields[fi];
    var x := RemovePkg(f.typeName);
    var t := FieldTable(files, i, mi);
    QualifierOfOwner(files, i, t, x, j);
    if !Declares(files[j], x + "Model") {
      var m :| 0 <= m < |files[j].messages| && files[j].messages[m].name == x;
      ConvertersOfOwner(files, i, mi, fi, j, m);
    }
  }

  /** A message field of output i whose model key resolves is linked, as above, to an
      input j <= i: the model it names is declared by an earlier or the same input of
      its package, and its conversions call the converters that input's output
      declares. */
  lemma FieldConverterDeclared(files: seq<FileDescriptor>, i: nat, mi: nat, fi: nat)
    requires AllNamed(files) && AllSimpleNames(files) && i < |files|
    requires mi < |files[i].messages| && fi < |files[i].messages[mi].fields|
    requires var f := files[i].messages[mi].fields[fi];
             f.fieldType == TypeMessage && !TM.IsTimestamp(f)
    ensures mi < |OutputRecords(files, i).messages| && fi < |OutputRecords(files, i).messages[mi].fields|
    ensures OutputRecords(files, i).messages[mi].fields[fi] ==
              FieldRecord(FieldTable(files, i, mi), files[i], files[i].messages[mi].fields[fi])
    ensures var x := RemovePkg(files[i].messages[mi].fields[fi].typeName);
            R.FullTypeName(files[i], x + "Model") in FieldTable(files, i, mi) ==>
              exists j :: 0 <= j <= i && LinkedTo(files, i, mi, fi, j)
  {
    var f := files[i].messages[mi].fields[fi];
    var x := RemovePkg(f.typeName);
    var t := FieldTable(files, i, mi);
    var key := R.FullTypeName(files[i], x + "Model");
    OutputField(files, i, mi, fi);
    if key in t {
      ModelKeyOwnerAt(files, i, mi, x);
      var j :| 0 <= j <= i && t[key] == files[j] && files[j].package == files[i].package &&
               (Declares(files[j], x + "Model") || exists m :: 0 <= m < |files[j].messages| && files[j].messages[m].name == x);
      LinkedToOwner(files, i, mi, fi, j);
    }
  }
}
