/** The type resolver of generator.go: a table from fully qualified type names
    (".package.Name") to the file that defines them. */
module Resolver {
  import opened GoStrings
  import opened Descriptors
  import opened Naming

  type Table = map<string, FileDescriptor>

  const NoSuchType := "no such type"

  /** samePackage: same package and same file name, so one output file. */
  predicate SamePackage(a: FileDescriptor, b: FileDescriptor) {
    a.package == b.package && a.name == b.name
  }

  /** fullTypeName: ".package.name", with one trailing "[]" removed first. */
  function FullTypeName(fd: FileDescriptor, typeName: string): (r: string)
    ensures HasPrefix(r, "." + fd.package + ".")
    ensures HasSuffix(typeName, "[]") ==> r + "[]" == "." + fd.package + "." + typeName
    ensures !HasSuffix(typeName, "[]") ==> r == "." + fd.package + "." + typeName
  {
    var name := if HasSuffix(typeName, "[]") then typeName[..|typeName| - 2] else typeName;
    assert HasSuffix(typeName, "[]") ==> name + "[]" == typeName;
    "." + fd.package + "." + name
  }

  /** A name and the same name with the array marker share one table key. */
  lemma FullTypeNameIgnoresArrayMarker(fd: FileDescriptor, typeName: string)
    requires !HasSuffix(typeName, "[]")
    ensures FullTypeName(fd, typeName + "[]") == FullTypeName(fd, typeName)
  {
    var a := FullTypeName(fd, typeName + "[]");
    assert HasSuffix(typeName + "[]", "[]");
    assert a + "[]" == ("." + fd.package + "." + typeName) + "[]";
    assert a == (a + "[]")[..|a|];
  }

  /** The table after Set(fd, name). */
  function Register(t: Table, fd: FileDescriptor, name: string): Table {
    t[FullTypeName(fd, name) := fd]
  }

  /** Resolve: the defining file of a registered key, "no such type" otherwise. */
  function Resolve(t: Table, typeName: string): (r: Result<FileDescriptor>)
    ensures r.Ok? <==> typeName in t
    ensures r.Ok? ==> r.value == t[typeName]
    ensures r.Err? ==> r.msg == NoSuchType
  {
    if typeName in t then Ok(t[typeName]) else Err(NoSuchType)
  }

  /** After Set(fd, name), resolving its full name gives fd back. */
  lemma ResolveRegistered(t: Table, fd: FileDescriptor, name: string)
    ensures Resolve(Register(t, fd, name), FullTypeName(fd, name)) == Ok(fd)
  {
  }

  /** A later Set with the same key replaces the earlier entry. */
  lemma RegisterOverwrites(t: Table, first: FileDescriptor, second: FileDescriptor, name: string)
    requires first.package == second.package
    ensures Resolve(Register(Register(t, first, name), second, name), FullTypeName(first, name)) == Ok(second)
  {
  }

  /** Set leaves every other key as it was. */
  lemma RegisterKeepsOtherKeys(t: Table, fd: FileDescriptor, name: string, key: string)
    requires key != FullTypeName(fd, name)
    ensures Resolve(Register(t, fd, name), key) == Resolve(t, key)
  {
  }

  /** The prefix TypeName puts before a name: the import alias of the defining file and
      a dot when that file is another output file, nothing otherwise. */
  function Qualifier(t: Table, fd: FileDescriptor, typeName: string): (q: string)
    ensures q == "" || (|q| >= 1 && q[|q| - 1] == '.')
  {
    match Resolve(t, FullTypeName(fd, typeName))
    case Ok(orig) => if !SamePackage(fd, orig) then ImportName(orig) + "." else ""
    case Err(_) => ""
  }

  /** A name and its array form get the same qualifier. */
  lemma QualifierIgnoresArrayMarker(t: Table, fd: FileDescriptor, typeName: string)
    requires !HasSuffix(typeName, "[]")
    ensures Qualifier(t, fd, typeName + "[]") == Qualifier(t, fd, typeName)
  {
    FullTypeNameIgnoresArrayMarker(fd, typeName);
  }

  /** TypeName: the name as it must be written in fd's output file. */
  function TypeName(t: Table, fd: FileDescriptor, typeName: string): (r: string)
    ensures r == Qualifier(t, fd, typeName) + typeName
    ensures HasSuffix(r, typeName)
  {
    var orig := Resolve(t, FullTypeName(fd, typeName));
    if orig.Ok? && !SamePackage(fd, orig.value) then ImportName(orig.value) + "." + typeName
    else typeName
  }

  /** TypeName leaves the name alone exactly when the key is unresolved or its file is
      fd's own output file, and otherwise prefixes the defining file's import alias. */
  lemma TypeNameCases(t: Table, fd: FileDescriptor, typeName: string)
    ensures var key := FullTypeName(fd, typeName);
      && (key !in t || SamePackage(fd, t[key]) <==> TypeName(t, fd, typeName) == typeName)
      && (key in t && !SamePackage(fd, t[key]) ==>
            TypeName(t, fd, typeName) == ImportName(t[key]) + "." + typeName)
  {
    var key := FullTypeName(fd, typeName);
    if key in t && !SamePackage(fd, t[key]) {
      assert |TypeName(t, fd, typeName)| > |typeName|;
    }
  }

  /** Two names whose keys resolve alike get the same qualifier. */
  lemma SameResolutionSameQualifier(t: Table, fd: FileDescriptor, a: string, b: string)
    requires Resolve(t, FullTypeName(fd, a)) == Resolve(t, FullTypeName(fd, b))
    ensures Qualifier(t, fd, a) == Qualifier(t, fd, b)
  {
  }

  /** The resolver starts empty (Go allocates its map on the first Set) and Set writes
      one entry in place. */
  class DependencyResolver {
    var v: Table

    constructor ()
      ensures v == map[]
    {
      v := map[];
    }

    method Set(fd: FileDescriptor, messageName: string)
      modifies this
      ensures v == Register(old(v), fd, messageName)
      ensures Resolve(v, FullTypeName(fd, messageName)) == Ok(fd)
      ensures forall k :: k != FullTypeName(fd, messageName) ==> Resolve(v, k) == Resolve(old(v), k)
    {
      var typeName := FullTypeName(fd, messageName);
      v := v[typeName := fd];
    }
  }
}
