/** The second resolver, dependencies.go: it refuses the Timestamp type and writes
    names of the file's own package flattened with '_'. */
module FlatResolver {
  import opened GoStrings
  import opened Descriptors
  import R = Resolver

  const TimestampKey := ".google.protobuf.Timestamp"
  const NativeDate := "type is replaced by native Date"

  /** Resolve: "no such type" for an unregistered key (checked first), then the
      Timestamp refusal, then the defining file. */
  function Resolve(t: R.Table, typeName: string): (r: Result<FileDescriptor>)
    ensures typeName !in t ==> r == Err(R.NoSuchType)
    ensures typeName in t && typeName == TimestampKey ==> r == Err(NativeDate)
    ensures r.Ok? <==> typeName in t && typeName != TimestampKey
    ensures r.Ok? ==> r.value == t[typeName]
  {
    if typeName !in t then Err(R.NoSuchType)
    else if typeName == TimestampKey then Err(NativeDate)
    else Ok(t[typeName])
  }

  /** After Set(fd, name), every key except Timestamp's resolves to fd. */
  lemma ResolveRegistered(t: R.Table, fd: FileDescriptor, name: string)
    requires R.FullTypeName(fd, name) != TimestampKey
    ensures Resolve(R.Register(t, fd, name), R.FullTypeName(fd, name)) == Ok(fd)
  {
  }

  /** Timestamp never resolves, registered or not. */
  lemma TimestampNeverResolves(t: R.Table)
    ensures Resolve(t, TimestampKey).Err?
    ensures TimestampKey !in t ==> Resolve(t, TimestampKey).msg == R.NoSuchType
  {
  }

  /** Go panics on typeName[0] for "" and on the final [1:] when the rest of a fully
      qualified name is exactly the package. */
  predicate TypeNameDefined(fd: FileDescriptor, typeName: string) {
    typeName != "" &&
    (typeName[0] == '.' && HasPrefix(typeName[1..], fd.package) ==> |typeName| > |fd.package| + 1)
  }

  /** TypeName: a name that is not fully qualified is returned as is; otherwise the
      leading '.' goes, then a leading package prefix and the character after it, and
      the remaining dots become '_'. */
  function TypeName(fd: FileDescriptor, typeName: string): (r: string)
    requires TypeNameDefined(fd, typeName)
    ensures typeName[0] != '.' ==> r == typeName
    ensures typeName[0] == '.' ==> '.' !in r
  {
    if typeName[0] != '.' then typeName
    else
      var name := typeName[1..];
      var local := if HasPrefix(name, fd.package) then TrimPrefix(name, fd.package)[1..] else name;
      ReplaceAll(local, '.', '_')
  }

  /** A name of fd's own package loses the package and has its nested dots flattened. */
  lemma TypeNameOfOwnPackage(fd: FileDescriptor, rest: string)
    ensures TypeNameDefined(fd, "." + fd.package + "." + rest)
    ensures TypeName(fd, "." + fd.package + "." + rest) == ReplaceAll(rest, '.', '_')
  {
    var s := "." + fd.package + "." + rest;
    assert s[1..] == fd.package + "." + rest;
    assert s[1..][..|fd.package|] == fd.package;
    assert TrimPrefix(s[1..], fd.package) == "." + rest;
  }

  /** The corrected reading: only "package." counts as the package prefix, so another
      package whose name merely starts with it, or a name in the empty package, is kept
      whole; there is nothing left to panic on. */
  function TypeNameScoped(fd: FileDescriptor, typeName: string): (r: string)
    requires typeName != ""
    ensures typeName[0] != '.' ==> r == typeName
    ensures typeName[0] == '.' ==> '.' !in r
  {
    if typeName[0] != '.' then typeName
    else
      var name := typeName[1..];
      var local := TrimPrefix(name, fd.package + ".");
      ReplaceAll(local, '.', '_')
  }

  lemma TypeNameScopedOfOwnPackage(fd: FileDescriptor, rest: string)
    ensures TypeNameScoped(fd, "." + fd.package + "." + rest) == ReplaceAll(rest, '.', '_')
  {
    var s := "." + fd.package + "." + rest;
    assert s[1..] == (fd.package + ".") + rest;
  }

  /** A name outside fd's package keeps its package, flattened. */
  lemma TypeNameScopedOfOtherPackage(fd: FileDescriptor, name: string)
    requires !HasPrefix(name, fd.package + ".")
    ensures TypeNameScoped(fd, "." + name) == ReplaceAll(name, '.', '_')
  {
    assert ("." + name)[1..] == name;
  }

  /** As written, a file without a package drops the first character of every name:
      ".Foo" becomes "oo". */
  lemma EmptyPackageDropsFirstCharacter(fd: FileDescriptor)
    requires fd.package == ""
    ensures TypeNameDefined(fd, ".Foo")
    ensures TypeName(fd, ".Foo") == "oo"
    ensures TypeNameScoped(fd, ".Foo") == "Foo"
  {
    assert ".Foo"[1..] == "Foo";
    assert TrimPrefix("Foo", "") == "Foo";
    assert "Foo"[1..] == "oo";
    assert ReplaceAll("oo", '.', '_') == "oo";
    assert "Foo"[..1][0] == 'F';
    assert ReplaceAll("Foo", '.', '_') == "Foo";
  }

  /** As written, package "foo" mangles a name of package "foobar": ".foobar.Baz"
      becomes "ar_Baz" instead of "foobar_Baz". */
  lemma PackagePrefixMangles(fd: FileDescriptor)
    requires fd.package == "foo"
    ensures TypeNameDefined(fd, ".foobar.Baz")
    ensures TypeName(fd, ".foobar.Baz") == "ar_Baz"
    ensures TypeNameScoped(fd, ".foobar.Baz") == "foobar_Baz"
  {
    PackagePrefixTypeName(fd);
    PackagePrefixScoped(fd);
  }

  /** Whatever follows the package text, the character right after it is dropped. */
  lemma TypeNameOfPrefixed(fd: FileDescriptor, rest: string)
    requires rest != ""
    ensures TypeNameDefined(fd, "." + fd.package + rest)
    ensures TypeName(fd, "." + fd.package + rest) == ReplaceAll(rest[1..], '.', '_')
  {
    var s := "." + fd.package + rest;
    assert s[1..] == fd.package + rest;
    assert s[1..][..|fd.package|] == fd.package;
    assert TrimPrefix(s[1..], fd.package) == rest;
  }

  lemma PackagePrefixTypeName(fd: FileDescriptor)
    requires fd.package == "foo"
    ensures TypeNameDefined(fd, ".foobar.Baz") && TypeName(fd, ".foobar.Baz") == "ar_Baz"
  {
    FoobarSplits();
    TypeNameOfPrefixed(fd, "bar.Baz");
    FlattenArBaz();
  }

  lemma PackagePrefixScoped(fd: FileDescriptor)
    requires fd.package == "foo"
    ensures TypeNameScoped(fd, ".foobar.Baz") == "foobar_Baz"
  {
    FoobarNotInFoo();
    TypeNameScopedOfOtherPackage(fd, "foobar.Baz");
    FoobarSplits();
    FlattenFoobarBaz();
  }

  lemma FoobarSplits()
    ensures "." + "foo" + "bar.Baz" == ".foobar.Baz"
    ensures "." + "foobar.Baz" == ".foobar.Baz"
    ensures "bar.Baz"[1..] == "ar.Baz"
  {
  }

  lemma FoobarNotInFoo()
    ensures !HasPrefix("foobar.Baz", "foo" + ".")
  {
    assert ("foo" + ".")[3] == '.';
    assert "foobar.Baz"[..4][3] == 'b';
  }

  lemma FlattenArBaz()
    ensures ReplaceAll("ar.Baz", '.', '_') == "ar_Baz"
  {
  }

  lemma FlattenFoobarBaz()
    ensures ReplaceAll("foobar.Baz", '.', '_') == "foobar_Baz"
  {
    ReplaceAllAppend("foobar", ".Baz", '.', '_');
    FoobarBazSplits();
    FlattenFoobar();
    FlattenDotBaz();
  }

  lemma FoobarBazSplits()
    ensures "foobar" + ".Baz" == "foobar.Baz"
    ensures "foobar" + "_Baz" == "foobar_Baz"
  {
  }

  lemma FlattenFoobar()
    ensures ReplaceAll("foobar", '.', '_') == "foobar"
  {
  }

  lemma FlattenDotBaz()
    ensures ReplaceAll(".Baz", '.', '_') == "_Baz"
  {
  }

  /** The resolver of dependencies.go: the same in-place table as generator.go's. */
  class DependencyResolver {
    var v: R.Table

    constructor ()
      ensures v == map[]
    {
      v := map[];
    }

    method Set(fd: FileDescriptor, messageName: string)
      modifies this
      ensures v == R.Register(old(v), fd, messageName)
      ensures R.FullTypeName(fd, messageName) != TimestampKey ==>
                Resolve(v, R.FullTypeName(fd, messageName)) == Ok(fd)
      ensures Resolve(v, TimestampKey).Err?
    {
      var typeName := R.FullTypeName(fd, messageName);
      v := v[typeName := fd];
    }
  }
}
